/**
 * What the name resolver computes from a paginated listing, as pure functions,
 * and what is proved about it.
 *
 * The resolver's page handler answers "continue" after a page that held an
 * exact match and "stop" after a page that held none, and the pagination driver
 * honours that answer. `Resolve` is that behaviour as written; `ResolveIntended`
 * is the evident intent (stop at the first exact match, skip pages without one).
 */
module Listing {
  import opened Wrappers
  import opened Volumes

  /** The resolver's result: the captured record and the error the walk ended with. */
  datatype Lookup = Lookup(vol: Volume, err: Option<string>)

  /**
   * The page walk as written, with `vol` the record captured so far. An extraction
   * failure ends the walk with the zero record and the failure's text; a page with
   * no exact match ends it with what was captured; a page with a match captures its
   * first match and the walk goes on.
   */
  function Scan(pages: seq<Page>, name: string, vol: Volume): (r: Lookup)
    ensures r.err.Some? ==> r.vol == Zero
    ensures r.vol == vol || r.vol == Zero || r.vol.name == name
    decreases |pages|
  {
    if pages == [] then Lookup(vol, None)
    else
      match pages[0]
      case ExtractFailure(text) => Lookup(Zero, Some(text))
      case Page(vs) =>
        var i := FirstMatch(vs, name);
        if i < |vs| then Scan(pages[1..], name, vs[i]) else Lookup(vol, None)
  }

  /** The resolver as written: the walk starts with the zero record captured. */
  function Resolve(pages: seq<Page>, name: string): Lookup
  {
    Scan(pages, name, Zero)
  }

  /** `n` is the length of the leading run of pages that hold an exact match. */
  ghost predicate MatchedRun(pages: seq<Page>, name: string, n: nat)
  {
    && n <= |pages|
    && (forall j :: 0 <= j < n ==> Matches(pages[j], name))
    && (n < |pages| ==> !Matches(pages[n], name))
  }

  /** The length of the leading run of matching pages. */
  ghost function RunLength(pages: seq<Page>, name: string): (n: nat)
    ensures MatchedRun(pages, name, n)
    decreases |pages|
  {
    if pages != [] && Matches(pages[0], name) then 1 + RunLength(pages[1..], name) else 0
  }

  /**
   * The walk's outcome in closed form: it is decided by the page that ends the
   * leading run of matching pages. An extraction failure there gives the error;
   * otherwise the result is the first match of the run's last page, or the
   * captured record when the run is empty.
   */
  lemma {:induction false} ScanOutcome(pages: seq<Page>, name: string, vol: Volume, n: nat)
    requires MatchedRun(pages, name, n)
    ensures Scan(pages, name, vol) ==
      if n < |pages| && pages[n].ExtractFailure? then Lookup(Zero, Some(pages[n].text))
      else if n == 0 then Lookup(vol, None)
      else Lookup(FirstOf(pages[n - 1], name), None)
  {
    if n > 0 {
      assert Matches(pages[0], name);
      assert MatchedRun(pages[1..], name, n - 1) by {
        forall j | 0 <= j < n - 1 ensures Matches(pages[1..][j], name) {
          assert pages[1..][j] == pages[j + 1];
        }
      }
      ScanOutcome(pages[1..], name, FirstOf(pages[0], name), n - 1);
    }
  }

  /**
   * An extraction failure aborts resolution exactly when the walk reaches the
   * failing page, that is, when every page before it held a match; the error
   * comes with the zero record and the failure's own text.
   */
  lemma ResolveErrorIff(pages: seq<Page>, name: string)
    ensures Resolve(pages, name).err.Some? <==>
      exists k :: 0 <= k < |pages| && pages[k].ExtractFailure? &&
        forall j :: 0 <= j < k ==> Matches(pages[j], name)
    ensures Resolve(pages, name).err.Some? ==>
      Resolve(pages, name).vol == Zero &&
      exists k :: 0 <= k < |pages| && pages[k].ExtractFailure? &&
        (forall j :: 0 <= j < k ==> Matches(pages[j], name)) &&
        Resolve(pages, name).err == Some(pages[k].text)
  {
    var n := RunLength(pages, name);
    ScanOutcome(pages, name, Zero, n);
    if exists k :: 0 <= k < |pages| && pages[k].ExtractFailure? &&
        forall j :: 0 <= j < k ==> Matches(pages[j], name)
    {
      var k :| 0 <= k < |pages| && pages[k].ExtractFailure? &&
        forall j :: 0 <= j < k ==> Matches(pages[j], name);
      assert !Matches(pages[k], name);
      assert k == n;
    }
    if Resolve(pages, name).err.Some? {
      assert n < |pages| && pages[n].ExtractFailure?;
    }
  }

  /**
   * What resolution returns is either the zero record or, with no error, the first
   * exact match of some page of the listing; in particular its name is the
   * requested one.
   */
  lemma ResolveFound(pages: seq<Page>, name: string)
    ensures var r := Resolve(pages, name);
      r.vol == Zero ||
      (r.err.None? && r.vol.name == name &&
       exists k :: 0 <= k < |pages| && Matches(pages[k], name) && r.vol == FirstOf(pages[k], name))
  {
    var n := RunLength(pages, name);
    ScanOutcome(pages, name, Zero, n);
    if n > 0 {
      assert Matches(pages[n - 1], name);
    }
  }

  /** An empty listing, or a first page with no exact match, resolves to "not found" without error. */
  lemma ResolveNotFound(pages: seq<Page>, name: string)
    requires pages == [] || (pages[0].Page? && !Matches(pages[0], name))
    ensures Resolve(pages, name) == Lookup(Zero, None)
  {
  }

  /**
   * The walk stops at the first page with no exact match: pages after it are
   * never consulted and cannot change the outcome.
   */
  lemma ResolveStopsAtUnmatchedPage(pages: seq<Page>, more: seq<Page>, name: string)
    requires pages != [] && !Matches(pages[|pages| - 1], name)
    ensures Resolve(pages + more, name) == Resolve(pages, name)
  {
    var n := RunLength(pages, name);
    assert MatchedRun(pages + more, name, n) by {
      forall j | 0 <= j <= n && j < |pages| ensures (pages + more)[j] == pages[j] { }
    }
    ScanOutcome(pages, name, Zero, n);
    ScanOutcome(pages + more, name, Zero, n);
  }

  /**
   * When the backend's name filter is honoured (every listed record carries the
   * requested name and no page is empty or fails), the walk visits every page and
   * returns the first record of the last one.
   */
  lemma ResolveFilteredListing(pages: seq<Page>, name: string)
    requires pages != []
    requires forall k :: 0 <= k < |pages| ==> pages[k].Page? && pages[k].vols != []
    requires forall v :: v in Records(pages) ==> v.name == name
    ensures Resolve(pages, name) == Lookup(pages[|pages| - 1].vols[0], None)
  {
    assert MatchedRun(pages, name, |pages|) by {
      forall j | 0 <= j < |pages| ensures Matches(pages[j], name) {
        var v := pages[j].vols[0];
        InRecords(pages, j, v);
        assert FirstMatch(pages[j].vols, name) == 0;
      }
    }
    ScanOutcome(pages, name, Zero, |pages|);
    InRecords(pages, |pages| - 1, pages[|pages| - 1].vols[0]);
  }

  /**
   * A faithfully name-filtered listing of the backend's records, cut into pages of
   * any size, resolves to one of those records with the requested name whenever
   * one exists, and to "not found" otherwise.
   */
  lemma ResolveNamedListing(records: seq<Volume>, name: string, size: nat)
    requires size > 0
    ensures var r := Resolve(Paginate(Named(records, name), size), name);
      r.err.None? &&
      (Named(records, name) == [] ==> r.vol == Zero) &&
      (Named(records, name) != [] ==> r.vol in Named(records, name))
  {
    var pages := Paginate(Named(records, name), size);
    if Named(records, name) != [] {
      ResolveFilteredListing(pages, name);
      InRecords(pages, |pages| - 1, pages[|pages| - 1].vols[0]);
    } else {
      ResolveNotFound(pages, name);
    }
  }

  /**
   * The resolver as evidently intended: the first page that fails or holds an
   * exact match decides; pages without a match are skipped. The pager ends the
   * walk at an empty page without consulting the handler, so an empty page ends
   * it with "not found".
   */
  function ResolveIntended(pages: seq<Page>, name: string): (r: Lookup)
    ensures r.err.Some? ==> r.vol == Zero
    ensures r.vol == Zero || r.vol.name == name
    decreases |pages|
  {
    if pages == [] then Lookup(Zero, None)
    else
      match pages[0]
      case ExtractFailure(text) => Lookup(Zero, Some(text))
      case Page(vs) =>
        var i := FirstMatch(vs, name);
        if vs == [] then Lookup(Zero, None)
        else if i < |vs| then Lookup(vs[i], None)
        else ResolveIntended(pages[1..], name)
  }

  /**
   * With no extraction failure and no empty page, the intended resolver returns
   * the first exact match of the whole listing, however the listing is cut into
   * such pages.
   */
  lemma {:induction false} ResolveIntendedIsFirstMatch(pages: seq<Page>, name: string)
    requires forall k :: 0 <= k < |pages| ==> pages[k].Page? && pages[k].vols != []
    ensures var rs := Records(pages); var i := FirstMatch(rs, name);
      ResolveIntended(pages, name) == Lookup(if i < |rs| then rs[i] else Zero, None)
  {
    if pages != [] {
      var vs := pages[0].vols;
      ResolveIntendedIsFirstMatch(pages[1..], name);
      FirstMatchAppend(vs, Records(pages[1..]), name);
    }
  }

  /**
   * As the pager does, the intended walk ends at an empty page reached after
   * pages without an exact match: it reports "not found" and pages after the
   * empty one are never consulted.
   */
  lemma {:induction false} ResolveIntendedStopsAtEmptyPage(pages: seq<Page>, more: seq<Page>, name: string)
    requires forall k :: 0 <= k < |pages| ==> pages[k].Page? && pages[k].vols != [] && !Matches(pages[k], name)
    ensures ResolveIntended(pages + [Page([])] + more, name) == Lookup(Zero, None)
  {
    var all := pages + [Page([])] + more;
    if pages != [] {
      assert all[0] == pages[0] && all[1..] == pages[1..] + [Page([])] + more;
      ResolveIntendedStopsAtEmptyPage(pages[1..], more, name);
    } else {
      assert all[0] == Page([]);
    }
  }

  /**
   * The discrepancy between the two resolvers, on the backend's own records
   * listed without filtering one per page: the record named "vol-c" sits on the
   * second page after a record named "x-old". As written, the walk stops at the
   * first page and reports "not found", so a create would follow although the
   * volume exists; as intended, the record is found.
   */
  lemma AsWrittenMissesLaterPage()
    ensures var stale := Volume("1", "x-old", "available", 1, "", "CSI Volume");
      var wanted := Volume("2", "vol-c", "available", 1, "", "CSI Volume");
      var listing := Paginate([stale, wanted], 1);
      Resolve(listing, "vol-c") == Lookup(Zero, None) &&
      ResolveIntended(listing, "vol-c") == Lookup(wanted, None)
  {
  }
}
