/**
 * The part of the block-storage volume API that the provisioning path sees:
 * volume records, the pages of a name-filtered listing, and the options and
 * answer of a create call.
 */
module Volumes {

  /** A backend-assigned volume identifier; the backend never hands out an empty one. */
  type VolumeId = s: string | s != "" witness "0"

  /** A backend volume record, reduced to the fields the provisioning path reads or sets. */
  datatype Volume = Volume(
    id: string,
    name: string,
    status: string,
    size: nat,
    volumeType: string,
    description: string)

  /** The zero record, which the resolver uses to mean "not found". */
  const Zero: Volume := Volume("", "", "", 0, "", "")

  /** One page of a listing: the records extracted from it, or the failure to extract them. */
  datatype Page = Page(vols: seq<Volume>) | ExtractFailure(text: string)

  /** The options of a create call. */
  datatype CreateOpts = CreateOpts(size: nat, volumeType: string, description: string, name: string)

  /** The backend's answer to a create call: the new record's identity, or its error text. */
  datatype CreateAnswer = Accepted(id: VolumeId, status: string) | Rejected(text: string)

  /** Index of the first record whose name equals `name` exactly, or |vs| when there is none. */
  function FirstMatch(vs: seq<Volume>, name: string): (i: nat)
    ensures i <= |vs|
    ensures i < |vs| ==> vs[i].name == name
    ensures forall j :: 0 <= j < i ==> vs[j].name != name
  {
    if vs == [] then 0
    else if vs[0].name == name then 0
    else 1 + FirstMatch(vs[1..], name)
  }

  /** A page that could be extracted and holds a record named exactly `name`. */
  predicate Matches(p: Page, name: string) {
    p.Page? && FirstMatch(p.vols, name) < |p.vols|
  }

  /** The first record of a matching page whose name is exactly `name`. */
  function FirstOf(p: Page, name: string): (v: Volume)
    requires Matches(p, name)
    ensures v.name == name && v in p.vols
  {
    p.vols[FirstMatch(p.vols, name)]
  }

  /** Searching a concatenation finds the match in the first part if there is one, else in the second. */
  lemma {:induction false} FirstMatchAppend(a: seq<Volume>, b: seq<Volume>, name: string)
    ensures FirstMatch(a + b, name) ==
      if FirstMatch(a, name) < |a| then FirstMatch(a, name) else |a| + FirstMatch(b, name)
  {
    if a != [] {
      assert (a + b)[0] == a[0] && (a + b)[1..] == a[1..] + b;
      FirstMatchAppend(a[1..], b, name);
    } else {
      assert a + b == b;
    }
  }

  /** The records of a listing, page after page; a page that failed to extract contributes none. */
  function Records(pages: seq<Page>): seq<Volume>
  {
    if pages == [] then []
    else (if pages[0].Page? then pages[0].vols else []) + Records(pages[1..])
  }

  /** Every record of every extracted page belongs to the listing's records. */
  lemma {:induction false} InRecords(pages: seq<Page>, k: nat, v: Volume)
    requires k < |pages| && pages[k].Page? && v in pages[k].vols
    ensures v in Records(pages)
  {
    if k > 0 {
      InRecords(pages[1..], k - 1, v);
    }
  }

  /** The records named exactly `name`, in their original order: what a faithful name filter returns. */
  function Named(vs: seq<Volume>, name: string): (r: seq<Volume>)
    ensures forall v :: v in r <==> v in vs && v.name == name
    ensures r == [] <==> forall v :: v in vs ==> v.name != name
    ensures |r| <= |vs|
  {
    if vs == [] then []
    else
      var last := vs[|vs| - 1];
      assert vs == vs[..|vs| - 1] + [last];
      Named(vs[..|vs| - 1], name) + (if last.name == name then [last] else [])
  }

  /** A listing of `vs` cut into pages of at most `size` records; no page is empty. */
  function Paginate(vs: seq<Volume>, size: nat): (pages: seq<Page>)
    requires size > 0
    ensures Records(pages) == vs
    ensures forall k :: 0 <= k < |pages| ==> pages[k].Page? && 0 < |pages[k].vols| <= size
    decreases |vs|
  {
    if vs == [] then []
    else if |vs| <= size then [Page(vs)]
    else
      assert vs == vs[..size] + vs[size..];
      [Page(vs[..size])] + Paginate(vs[size..], size)
  }
}
