/**
 * The block-storage CSI controller's create-or-fetch path: the name resolver that
 * walks a paginated listing page by page, and CreateVolume, which reuses a found
 * record or issues one backend create.
 *
 * The backend is abstracted as the state it holds (its records and the create
 * calls it has received) plus the local mount directories the controller makes.
 * The remote listing, the backend's answer to a create and the outcome of the
 * local directory creation are parameters.
 */
module VolumeService {
  import opened Wrappers
  import opened Volumes
  import opened Listing

  /** The parts of a CSI CreateVolume request that the controller reads. */
  datatype CreateVolumeRequest = CreateVolumeRequest(name: string, parameters: map<string, string>)

  /** CSI CreateVolume error codes; the controller only ever uses UNKNOWN. */
  datatype CreateVolumeErrorCode = Unknown

  /** What CreateVolume answers. */
  datatype Response =
    | CreateVolumeError(code: CreateVolumeErrorCode, description: string)  // lookup failed
    | Existing(info: Volume)                                               // a record was found and is reused
    | Failed(err: string)                                                  // create or directory step failed
    | Created                                                              // volume created, directory made

  /** The description the controller gives every volume it creates. */
  const CsiDescription := "CSI Volume"

  /** The value of the optional "vtype" parameter; a missing key reads as the empty string. */
  function VolumeTypeParam(parameters: map<string, string>): string
  {
    if "vtype" in parameters then parameters["vtype"] else ""
  }

  /** The position of the first record named exactly `name`, or |vs| when there is none. */
  method FindInPage(vs: seq<Volume>, name: string) returns (i: nat)
    ensures i == FirstMatch(vs, name)
  {
    i := 0;
    while i < |vs|
      invariant i <= |vs|
      invariant forall j :: 0 <= j < i ==> vs[j].name != name
    {
      if vs[i].name == name {
        return;
      }
      i := i + 1;
    }
  }

  /**
   * The resolver's page callback as written: an extraction failure yields the
   * error and "stop"; a page with an exact match overwrites the captured record
   * with its first match and yields "continue"; a page with none yields "stop".
   */
  method HandlePage(page: Page, name: string, vol: Volume) returns (vol': Volume, more: bool, err: Option<string>)
    ensures page.ExtractFailure? ==> err == Some(page.text) && !more
    ensures page.Page? ==> err.None? && more == Matches(page, name)
    ensures more ==> Matches(page, name) && vol' == FirstOf(page, name)
    ensures !more ==> vol' == vol
  {
    match page
    case ExtractFailure(text) =>
      return vol, false, Some(text);
    case Page(vs) =>
      var i := FindInPage(vs, name);
      if i < |vs| {
        return vs[i], true, None;
      }
      return vol, false, None;
  }

  /**
   * The page callback with the evident intent: "stop" after an exact match or an
   * extraction failure, "continue" after a page with no match.
   */
  method HandlePageIntended(page: Page, name: string, vol: Volume) returns (vol': Volume, more: bool, err: Option<string>)
    ensures page.ExtractFailure? ==> err == Some(page.text) && !more && vol' == vol
    ensures page.Page? ==> err.None? && more == !Matches(page, name)
    ensures page.Page? && !more ==> vol' == FirstOf(page, name)
    ensures more ==> vol' == vol
  {
    match page
    case ExtractFailure(text) =>
      return vol, false, Some(text);
    case Page(vs) =>
      var i := FindInPage(vs, name);
      if i < |vs| {
        return vs[i], false, None;
      }
      return vol, true, None;
  }

  class Service {
    /** The backend's volume records; the backend is the single source of truth. */
    var volumes: seq<Volume>
    /** Every create call the controller has issued to the backend, in order. */
    var creates: seq<CreateOpts>
    /** The local mount directories the controller has made, by volume name. */
    var mountDirs: seq<string>

    /** Backend records carry backend-assigned, hence non-empty, identifiers. */
    ghost predicate Valid()
      reads this
    {
      forall v :: v in volumes ==> v.id != ""
    }

    constructor (existing: seq<Volume>)
      requires forall v :: v in existing ==> v.id != ""
      ensures Valid()
      ensures volumes == existing && creates == [] && mountDirs == []
    {
      volumes, creates, mountDirs := existing, [], [];
    }

    /**
     * getVolumeByName: drives the page callback over the listing, honouring its
     * continue/stop answer, and returns the captured record, or the zero record
     * with the error that ended the walk.
     */
    method GetVolumeByName(listing: seq<Page>, name: string) returns (r: Lookup)
      ensures r == Resolve(listing, name)
      ensures r.err.Some? ==> r.vol == Zero
      ensures r.vol == Zero || r.vol.name == name
    {
      var vol := Zero;
      var err: Option<string> := None;
      var k, stop := 0, false;
      while k < |listing| && !stop
        invariant k <= |listing|
        invariant !stop ==> err.None? && Scan(listing[k..], name, vol) == Resolve(listing, name)
        invariant stop ==> Resolve(listing, name) == if err.Some? then Lookup(Zero, err) else Lookup(vol, None)
        decreases |listing| - k, !stop
      {
        assert listing[k..][0] == listing[k] && listing[k..][1..] == listing[k + 1..];
        if listing[k] == Page([]) {
          // the pager ends the walk at an empty page without calling the handler
          stop := true;
        } else {
          var more;
          vol, more, err := HandlePage(listing[k], name, vol);
          if err.Some? || !more {
            stop := true;
          } else {
            k := k + 1;
          }
        }
      }
      if err.Some? {
        return Lookup(Zero, err);
      }
      return Lookup(vol, None);
    }

    /** The resolver as evidently intended: the first page that fails or holds an exact match decides. */
    method FindVolumeByName(listing: seq<Page>, name: string) returns (r: Lookup)
      ensures r == ResolveIntended(listing, name)
      ensures r.err.Some? ==> r.vol == Zero
      ensures r.vol == Zero || r.vol.name == name
    {
      var vol := Zero;
      var err: Option<string> := None;
      var k, stop := 0, false;
      while k < |listing| && !stop
        invariant k <= |listing|
        invariant !stop ==> err.None? && vol == Zero && ResolveIntended(listing[k..], name) == ResolveIntended(listing, name)
        invariant stop ==> ResolveIntended(listing, name) == if err.Some? then Lookup(Zero, err) else Lookup(vol, None)
        decreases |listing| - k, !stop
      {
        assert listing[k..][0] == listing[k] && listing[k..][1..] == listing[k + 1..];
        if listing[k] == Page([]) {
          // the pager ends the walk at an empty page without calling the handler
          stop := true;
        } else {
          var more;
          vol, more, err := HandlePageIntended(listing[k], name, vol);
          if err.Some? || !more {
            stop := true;
          } else {
            k := k + 1;
          }
        }
      }
      if err.Some? {
        return Lookup(Zero, err);
      }
      return Lookup(vol, None);
    }

    /**
     * The decision after the lookup: a failed lookup is reported as an UNKNOWN
     * CreateVolume error; a found record is returned as it is; otherwise one create
     * is issued with size 1, the "vtype" parameter, the CSI description and the
     * request's name. A rejected create surfaces the backend's text and stops there;
     * an accepted one adds the record and is followed by the mount directory step.
     */
    method Provision(lookup: Lookup, req: CreateVolumeRequest, answer: CreateAnswer, mkdir: Option<string>)
      returns (resp: Response)
      requires Valid()
      modifies this
      ensures Valid()
      ensures lookup.err.Some? ==>
        && resp == CreateVolumeError(Unknown, "CreateVolume failed")
        && volumes == old(volumes) && creates == old(creates) && mountDirs == old(mountDirs)
      ensures lookup.err.None? && lookup.vol != Zero ==>
        && resp == Existing(lookup.vol)
        && volumes == old(volumes) && creates == old(creates) && mountDirs == old(mountDirs)
      ensures lookup.err.None? && lookup.vol == Zero ==>
        creates == old(creates) + [CreateOpts(1, VolumeTypeParam(req.parameters), CsiDescription, req.name)]
      ensures lookup.err.None? && lookup.vol == Zero && answer.Rejected? ==>
        && resp == Failed(answer.text)
        && volumes == old(volumes) && mountDirs == old(mountDirs)
      ensures lookup.err.None? && lookup.vol == Zero && answer.Accepted? ==>
        && volumes == old(volumes) + [Volume(answer.id, req.name, answer.status, 1,
                                             VolumeTypeParam(req.parameters), CsiDescription)]
        && (mkdir.Some? ==> resp == Failed(mkdir.value) && mountDirs == old(mountDirs))
        && (mkdir.None? ==> resp == Created && mountDirs == old(mountDirs) + [req.name])
    {
      if lookup.err.Some? {
        return CreateVolumeError(Unknown, "CreateVolume failed");
      }
      if lookup.vol == Zero {
        var opts := CreateOpts(0, "", "", "");
        opts := opts.(size := 1);
        opts := opts.(volumeType := VolumeTypeParam(req.parameters));
        opts := opts.(description := CsiDescription);
        opts := opts.(name := req.name);
        creates := creates + [opts];
        match answer
        case Rejected(text) =>
          return Failed(text);
        case Accepted(id, status) =>
          volumes := volumes + [Volume(id, opts.name, status, opts.size, opts.volumeType, opts.description)];
        if mkdir.Some? {
          return Failed(mkdir.value);
        }
        mountDirs := mountDirs + [req.name];
        return Created;
      }
      return Existing(lookup.vol);
    }

    /**
     * CreateVolume as written: resolve the request's name over the listing, then
     * decide. A reused record always carries the requested name.
     */
    method CreateVolume(req: CreateVolumeRequest, listing: seq<Page>, answer: CreateAnswer, mkdir: Option<string>)
      returns (resp: Response)
      requires Valid()
      modifies this
      ensures Valid()
      ensures var l := Resolve(listing, req.name); l.err.Some? ==>
        && resp == CreateVolumeError(Unknown, "CreateVolume failed")
        && volumes == old(volumes) && creates == old(creates) && mountDirs == old(mountDirs)
      ensures var l := Resolve(listing, req.name); l.err.None? && l.vol != Zero ==>
        && resp == Existing(l.vol) && resp.info.name == req.name
        && volumes == old(volumes) && creates == old(creates) && mountDirs == old(mountDirs)
      ensures var l := Resolve(listing, req.name); l.err.None? && l.vol == Zero ==>
        creates == old(creates) + [CreateOpts(1, VolumeTypeParam(req.parameters), CsiDescription, req.name)]
      ensures var l := Resolve(listing, req.name); l.err.None? && l.vol == Zero && answer.Rejected? ==>
        && resp == Failed(answer.text)
        && volumes == old(volumes) && mountDirs == old(mountDirs)
      ensures var l := Resolve(listing, req.name); l.err.None? && l.vol == Zero && answer.Accepted? ==>
        && volumes == old(volumes) + [Volume(answer.id, req.name, answer.status, 1,
                                             VolumeTypeParam(req.parameters), CsiDescription)]
        && (mkdir.Some? ==> resp == Failed(mkdir.value) && mountDirs == old(mountDirs))
        && (mkdir.None? ==> resp == Created && mountDirs == old(mountDirs) + [req.name])
    {
      var lookup := GetVolumeByName(listing, req.name);
      resp := Provision(lookup, req, answer, mkdir);
    }

    /** CreateVolume with the intended resolver; the decision after the lookup is the same. */
    method CreateVolumeIntended(req: CreateVolumeRequest, listing: seq<Page>, answer: CreateAnswer, mkdir: Option<string>)
      returns (resp: Response)
      requires Valid()
      modifies this
      ensures Valid()
      ensures var l := ResolveIntended(listing, req.name); l.err.Some? ==>
        && resp == CreateVolumeError(Unknown, "CreateVolume failed")
        && volumes == old(volumes) && creates == old(creates) && mountDirs == old(mountDirs)
      ensures var l := ResolveIntended(listing, req.name); l.err.None? && l.vol != Zero ==>
        && resp == Existing(l.vol) && resp.info.name == req.name
        && volumes == old(volumes) && creates == old(creates) && mountDirs == old(mountDirs)
      ensures var l := ResolveIntended(listing, req.name); l.err.None? && l.vol == Zero ==>
        creates == old(creates) + [CreateOpts(1, VolumeTypeParam(req.parameters), CsiDescription, req.name)]
      ensures var l := ResolveIntended(listing, req.name); l.err.None? && l.vol == Zero && answer.Rejected? ==>
        && resp == Failed(answer.text)
        && volumes == old(volumes) && mountDirs == old(mountDirs)
      ensures var l := ResolveIntended(listing, req.name); l.err.None? && l.vol == Zero && answer.Accepted? ==>
        && volumes == old(volumes) + [Volume(answer.id, req.name, answer.status, 1,
                                             VolumeTypeParam(req.parameters), CsiDescription)]
        && (mkdir.Some? ==> resp == Failed(mkdir.value) && mountDirs == old(mountDirs))
        && (mkdir.None? ==> resp == Created && mountDirs == old(mountDirs) + [req.name])
    {
      var lookup := FindVolumeByName(listing, req.name);
      resp := Provision(lookup, req, answer, mkdir);
    }

    /**
     * The reuse path on the backend's own state: when a record with the requested
     * name exists and the listing is the backend's records under a faithful name
     * filter, cut into pages of any size, one of those records is returned and
     * nothing is created, whatever the request parameters and the backend's answer.
     */
    method CreateExisting(req: CreateVolumeRequest, size: nat, answer: CreateAnswer, mkdir: Option<string>)
      returns (resp: Response)
      requires Valid() && size > 0
      requires exists v :: v in volumes && v.name == req.name
      modifies this
      ensures Valid()
      ensures resp.Existing? && resp.info in old(volumes) && resp.info.name == req.name
      ensures volumes == old(volumes) && creates == old(creates) && mountDirs == old(mountDirs)
    {
      ResolveNamedListing(volumes, req.name, size);
      var listing := Paginate(Named(volumes, req.name), size);
      resp := CreateVolume(req, listing, answer, mkdir);
    }

    /**
     * Create-or-fetch idempotence as written, when the listing is the backend's
     * records under a faithful name filter, cut into pages of any size: with no
     * record of that name yet, the first call creates it and the second call
     * returns that very record, so exactly one create is issued and one record added.
     */
    method CreateTwice(req: CreateVolumeRequest, size: nat, answer: CreateAnswer, mkdir: Option<string>,
                       answer2: CreateAnswer, mkdir2: Option<string>)
      returns (first: Response, second: Response)
      requires Valid() && size > 0
      requires forall v :: v in volumes ==> v.name != req.name
      requires answer.Accepted?
      modifies this
      ensures Valid()
      ensures var created := Volume(answer.id, req.name, answer.status, 1,
                                    VolumeTypeParam(req.parameters), CsiDescription);
        && first == (if mkdir.None? then Created else Failed(mkdir.value))
        && second == Existing(created)
        && volumes == old(volumes) + [created]
        && creates == old(creates) + [CreateOpts(1, VolumeTypeParam(req.parameters), CsiDescription, req.name)]
      ensures mountDirs == old(mountDirs) + (if mkdir.None? then [req.name] else [])
    {
      var created := Volume(answer.id, req.name, answer.status, 1,
                            VolumeTypeParam(req.parameters), CsiDescription);
      ghost var before := volumes;
      ResolveNamedListing(volumes, req.name, size);
      var listing := Paginate(Named(volumes, req.name), size);
      first := CreateVolume(req, listing, answer, mkdir);

      assert volumes == before + [created];
      assert created in volumes;
      second := CreateExisting(req, size, answer2, mkdir2);
    }

    /**
     * Create-or-fetch idempotence with the intended resolver holds for the
     * backend's records listed WITHOUT a name filter, cut into pages of any size.
     */
    method CreateTwiceIntended(req: CreateVolumeRequest, size: nat, answer: CreateAnswer, mkdir: Option<string>,
                               answer2: CreateAnswer, mkdir2: Option<string>)
      returns (first: Response, second: Response)
      requires Valid() && size > 0
      requires forall v :: v in volumes ==> v.name != req.name
      requires answer.Accepted?
      modifies this
      ensures Valid()
      ensures var created := Volume(answer.id, req.name, answer.status, 1,
                                    VolumeTypeParam(req.parameters), CsiDescription);
        && first == (if mkdir.None? then Created else Failed(mkdir.value))
        && second == Existing(created)
        && volumes == old(volumes) + [created]
        && creates == old(creates) + [CreateOpts(1, VolumeTypeParam(req.parameters), CsiDescription, req.name)]
      ensures mountDirs == old(mountDirs) + (if mkdir.None? then [req.name] else [])
    {
      var created := Volume(answer.id, req.name, answer.status, 1,
                            VolumeTypeParam(req.parameters), CsiDescription);
      var listing := Paginate(volumes, size);
      ResolveIntendedIsFirstMatch(listing, req.name);
      first := CreateVolumeIntended(req, listing, answer, mkdir);

      ghost var before := old(volumes);
      assert volumes == before + [created];
      FirstMatchAppend(before, [created], req.name);
      listing := Paginate(volumes, size);
      ResolveIntendedIsFirstMatch(listing, req.name);
      second := CreateVolumeIntended(req, listing, answer2, mkdir2);
    }
  }
}
