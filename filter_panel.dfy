/**
 * The filter panel of the map page: its two checkbox handlers, each of which builds a new
 * filter state from the current one and hands it to the map page.
 */
module FilterPanel {
  import opened Common
  import opened MapView

  /** `filters.netTypes.filter(type => type !== netType)`. */
  function Without(xs: seq<string>, t: string): (r: seq<string>)
    ensures t !in r
    ensures forall y :: y in r <==> y in xs && y != t
    ensures |r| <= |xs|
  {
    if |xs| == 0 then []
    else
      var n := |xs| - 1;
      Without(xs[..n], t) + (if xs[n] == t then [] else [xs[n]])
  }

  /** Removing a value distributes over concatenation, so the others keep their order. */
  lemma {:induction false} WithoutAppend(a: seq<string>, b: seq<string>, t: string)
    ensures Without(a + b, t) == Without(a, t) + Without(b, t)
  {
    if |b| > 0 {
      var n := |b| - 1;
      WithoutAppend(a, b[..n], t);
      assert (a + b)[..|a + b| - 1] == a + b[..n];
    } else {
      assert a + b == a;
    }
  }

  /** Removing a value that is not there changes nothing. */
  lemma {:induction false} WithoutAbsent(xs: seq<string>, t: string)
    requires t !in xs
    ensures Without(xs, t) == xs
  {
    if |xs| > 0 {
      var n := |xs| - 1;
      WithoutAbsent(xs[..n], t);
      assert xs[..n] + [xs[n]] == xs;
    }
  }

  /** Removing the only value present leaves nothing. */
  lemma {:induction false} WithoutOnly(xs: seq<string>, t: string)
    requires forall i :: 0 <= i < |xs| ==> xs[i] == t
    ensures Without(xs, t) == []
  {
    if |xs| > 0 {
      WithoutOnly(xs[..|xs| - 1], t);
    }
  }

  /** Every other value keeps its number of occurrences. */
  lemma {:induction false} WithoutCounts(xs: seq<string>, t: string, y: string)
    requires y != t
    ensures multiset(Without(xs, t))[y] == multiset(xs)[y]
    ensures multiset(Without(xs, t))[t] == 0
  {
    if |xs| > 0 {
      var n := |xs| - 1;
      WithoutCounts(xs[..n], t, y);
      assert xs == xs[..n] + [xs[n]];
    }
  }

  /** `handleRoofChange`: the roof box sets `hasRoof` and leaves the net types alone. */
  function RoofChange(f: Filters, checked: bool): (g: Filters)
    ensures g.hasRoof == checked && g.netTypes == f.netTypes
  {
    f.(hasRoof := checked)
  }

  /**
   * `handleNetTypeChange(netType)`: checking appends the type at the end, unchecking removes
   * every occurrence of it; the roof box is left alone either way.
   */
  function NetTypeChange(f: Filters, t: string, checked: bool): (g: Filters)
    ensures g.hasRoof == f.hasRoof
    ensures checked ==> g.netTypes == f.netTypes + [t]
    ensures !checked ==> t !in g.netTypes
    ensures !checked ==> forall y :: y != t ==> multiset(g.netTypes)[y] == multiset(f.netTypes)[y]
  {
    if checked then f.(netTypes := f.netTypes + [t])
    else
      var rest := Without(f.netTypes, t);
      assert forall y :: y != t ==> multiset(rest)[y] == multiset(f.netTypes)[y] by {
        forall y | y != t ensures multiset(rest)[y] == multiset(f.netTypes)[y] {
          WithoutCounts(f.netTypes, t, y);
        }
      }
      f.(netTypes := rest)
  }

  /** Checking a type that was not selected and unchecking it again restores the filters. */
  lemma CheckUncheck(f: Filters, t: string)
    requires t !in f.netTypes
    ensures NetTypeChange(NetTypeChange(f, t, true), t, false) == f
  {
    WithoutAppend(f.netTypes, [t], t);
    WithoutAbsent(f.netTypes, t);
    assert Without([t], t) == [];
  }

  /** Unchecking the only selected type, with the roof box clear, draws every location again. */
  lemma UncheckLastShowsAll(f: Filters, t: string, locs: seq<MapLocation>)
    requires !f.hasRoof && forall i :: 0 <= i < |f.netTypes| ==> f.netTypes[i] == t
    ensures Filtered(NetTypeChange(f, t, false), locs) == locs
  {
    WithoutOnly(f.netTypes, t);
    FilteredIdentity(NetTypeChange(f, t, false), locs);
  }

  /** After checking a type, every location of that type that meets the roof condition is drawn. */
  lemma CheckedTypeShown(f: Filters, t: string, locs: seq<MapLocation>, x: MapLocation)
    requires x in locs && x.netType == Some(t) && (f.hasRoof ==> x.hasRoof)
    ensures x in Filtered(NetTypeChange(f, t, true), locs)
  {
    assert t in f.netTypes + [t];
  }
}
