/**
 * The `.shp` test both loaders apply to a directory listing,
 * `x[-4:] == '.shp'`, and the comprehension `[x for x in xs if x[-4:] == '.shp']`.
 */
module ShpFilter {

  import Python

  const ShpSuffix: string := ".shp"

  /**
   * The Python test, with slice semantics: `x[-4:]` is all of x when x is
   * shorter than 4. So a name passes iff its last four characters are exactly
   * ".shp": names shorter than four characters never do, and case matters.
   */
  predicate IsShp(name: string)
    ensures IsShp(name) <==> |name| >= 4 && name[|name| - 4..] == ".shp"
  {
    Python.SliceFrom(name, -4) == ShpSuffix
  }

  lemma ShpExamples()
    ensures IsShp("tl_2017_53_tract.shp")
    ensures !IsShp("tl_2017_53_tract.shx") && !IsShp("tl_2017_53_tract.SHP")
    ensures !IsShp("shp") && !IsShp("")
  {
  }

  /** The filtering comprehension; the list grows at its end, as the comprehension does. */
  function Filter(listing: seq<string>): (kept: seq<string>)
    ensures |kept| <= |listing|
  {
    if listing == [] then []
    else
      var last := listing[|listing| - 1];
      Filter(listing[..|listing| - 1]) + (if IsShp(last) then [last] else [])
  }

  /** A name is in the filtered list iff it is in the listing and passes the test. */
  lemma {:induction false} FilterMembership(listing: seq<string>, x: string)
    ensures x in Filter(listing) <==> x in listing && IsShp(x)
  {
    if listing != [] {
      var n := |listing| - 1;
      FilterMembership(listing[..n], x);
      assert listing == listing[..n] + [listing[n]];
    }
  }

  /** Positions of the kept names in the listing, in increasing order. */
  function KeptIndices(listing: seq<string>): (idx: seq<nat>)
    ensures forall k :: 0 <= k < |idx| ==> idx[k] < |listing| && IsShp(listing[idx[k]])
    ensures forall k, l :: 0 <= k < l < |idx| ==> idx[k] < idx[l]
    ensures forall i :: 0 <= i < |listing| && IsShp(listing[i]) ==> i in idx
  {
    if listing == [] then []
    else
      var n := |listing| - 1;
      var init := listing[..n];
      var before := KeptIndices(init);
      var last: seq<nat> := if IsShp(listing[n]) then [n] else [];
      var idx := before + last;
      assert forall k :: 0 <= k < |before| ==> idx[k] == before[k] < n && listing[idx[k]] == init[before[k]];
      assert forall k :: |before| <= k < |idx| ==> idx[k] == n && IsShp(listing[n]);
      assert forall i :: 0 <= i < n && IsShp(listing[i]) ==> IsShp(init[i]) && i in before;
      idx
  }

  /**
   * The filtered list is the subsequence of the listing at the kept
   * positions: it keeps relative order and adds nothing.
   */
  lemma {:induction false} FilterIsSubsequence(listing: seq<string>)
    ensures |Filter(listing)| == |KeptIndices(listing)|
    ensures forall k :: 0 <= k < |Filter(listing)| ==> Filter(listing)[k] == listing[KeptIndices(listing)[k]]
  {
    if listing != [] {
      var n := |listing| - 1;
      FilterIsSubsequence(listing[..n]);
    }
  }

  /** One name more at the end of the listing. */
  lemma FilterSnoc(listing: seq<string>, x: string)
    ensures Filter(listing + [x]) == Filter(listing) + (if IsShp(x) then [x] else [])
  {
    assert (listing + [x])[..|listing|] == listing;
  }

  /** Filtering an already filtered list changes nothing. */
  lemma {:induction false} FilterIdempotent(listing: seq<string>)
    ensures Filter(Filter(listing)) == Filter(listing)
  {
    if listing != [] {
      var n := |listing| - 1;
      var init := listing[..n];
      FilterIdempotent(init);
      if IsShp(listing[n]) {
        assert Filter(listing) == Filter(init) + [listing[n]];
        FilterSnoc(Filter(init), listing[n]);
      } else {
        assert Filter(listing) == Filter(init);
      }
    }
  }

  /** A listing of four names, two of them shapefiles, keeps exactly those two, in listing order. */
  lemma FilterExample()
    ensures Filter(["a.shp", "a.dbf", "b.shp", "c.txt"]) == ["a.shp", "b.shp"]
  {
    FilterSnoc([], "a.shp");
    assert [] + ["a.shp"] == ["a.shp"];
    FilterSnoc(["a.shp"], "a.dbf");
    assert ["a.shp"] + ["a.dbf"] == ["a.shp", "a.dbf"];
    FilterSnoc(["a.shp", "a.dbf"], "b.shp");
    assert ["a.shp", "a.dbf"] + ["b.shp"] == ["a.shp", "a.dbf", "b.shp"];
    FilterSnoc(["a.shp", "a.dbf", "b.shp"], "c.txt");
    assert ["a.shp", "a.dbf", "b.shp"] + ["c.txt"] == ["a.shp", "a.dbf", "b.shp", "c.txt"];
  }
}
