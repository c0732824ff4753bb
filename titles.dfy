/**
 * Title normalisation of the prior snapshot (`str.replace('☆', '')` followed by
 * `str.replace('-', '')` on the `名前` column) and the title a listing is
 * displayed with.
 */
module Titles {
  import opened Listings

  const StarMarker: char := '☆'
  const DashMarker: char := '-'

  /** `t` with every occurrence of `c` deleted and everything else kept in order. */
  function Without(t: string, c: char): string
  {
    if t == [] then [] else (if t[0] == c then [] else [t[0]]) + Without(t[1..], c)
  }

  /**
   * Deleting `c` leaves no `c`, keeps every other character as often as it
   * occurred, and never lengthens the text.
   */
  lemma {:induction false} WithoutSpec(t: string, c: char)
    ensures var r := Without(t, c);
      && c !in r
      && (forall x :: x in r <==> x in t && x != c)
      && multiset(r) == multiset(t)[c := 0]
      && |r| <= |t|
  {
    if t != [] {
      WithoutSpec(t[1..], c);
      assert t == [t[0]] + t[1..];
    }
  }

  /** Deleting a character works piece by piece, so the kept characters stay in their order. */
  lemma {:induction false} WithoutAppend(a: string, b: string, c: char)
    ensures Without(a + b, c) == Without(a, c) + Without(b, c)
    decreases |a|
  {
    if a == [] {
      assert a + b == b;
    } else {
      assert (a + b)[0] == a[0] && (a + b)[1..] == a[1..] + b;
      WithoutAppend(a[1..], b, c);
    }
  }

  /** A prior title with both markers stripped, star first and then dash. */
  function NormaliseTitle(t: string): string
  {
    Without(Without(t, StarMarker), DashMarker)
  }

  /**
   * A normalised title holds neither marker, and holds every other character
   * of the title as often as the title does.
   */
  lemma NormaliseTitleSpec(t: string)
    ensures var r := NormaliseTitle(t);
      && StarMarker !in r && DashMarker !in r
      && multiset(r) == multiset(t)[StarMarker := 0][DashMarker := 0]
  {
    WithoutSpec(t, StarMarker);
    WithoutSpec(Without(t, StarMarker), DashMarker);
  }

  /** Deleting a character that does not occur changes nothing. */
  lemma {:induction false} WithoutAbsent(t: string, c: char)
    requires c !in t
    ensures Without(t, c) == t
  {
    if t != [] {
      WithoutAbsent(t[1..], c);
    }
  }

  /** Stripping works piece by piece: the title keeps the order of its characters. */
  lemma NormaliseTitleAppend(a: string, b: string)
    ensures NormaliseTitle(a + b) == NormaliseTitle(a) + NormaliseTitle(b)
  {
    WithoutAppend(a, b, StarMarker);
    WithoutAppend(Without(a, StarMarker), Without(b, StarMarker), DashMarker);
  }

  /** A title with no marker is left as it is. */
  lemma NormaliseCleanTitle(t: string)
    requires StarMarker !in t && DashMarker !in t
    ensures NormaliseTitle(t) == t
  {
    WithoutAbsent(t, StarMarker);
    WithoutAbsent(t, DashMarker);
  }

  /** Normalising a title twice is normalising it once. */
  lemma NormaliseTitleIdempotent(t: string)
    ensures NormaliseTitle(NormaliseTitle(t)) == NormaliseTitle(t)
  {
    NormaliseTitleSpec(t);
    NormaliseCleanTitle(NormaliseTitle(t));
  }

  /** The heading a listing is shown under: a star and a space before a new arrival's title. */
  function DisplayTitle(r: Listing): string
  {
    if r.flag == Star then [StarMarker, ' '] + r.title else r.title
  }

  /**
   * The displayed title always ends with the stored title; a new arrival's
   * starts with a star and a space, any other is the stored title itself; and
   * for a title with no star of its own (every normalised prior title) the
   * heading starts with a star exactly when the listing is a new arrival.
   */
  lemma DisplayTitleShowsFlag(r: Listing)
    ensures var d := DisplayTitle(r);
      |d| >= |r.title| && d[|d| - |r.title|..] == r.title
    ensures |DisplayTitle(r)| == |r.title| + (if r.flag == Star then 2 else 0)
    ensures r.flag == Star ==> DisplayTitle(r)[..2] == [StarMarker, ' ']
    ensures r.flag == Dash ==> DisplayTitle(r) == r.title
    ensures StarMarker !in r.title ==>
      var d := DisplayTitle(r);
      (|d| > 0 && d[0] == StarMarker) <==> r.flag == Star
  {
    var d := DisplayTitle(r);
    if r.flag == Dash && |d| > 0 {
      assert d[0] == r.title[0];
    }
  }

  /** A title decorated by an earlier run loses its star and its dash. */
  lemma DecoratedTitleStripped()
    ensures NormaliseTitle("☆Foo-") == "Foo"
  {
    StarStripped();
    DashStripped();
  }

  lemma StarStripped()
    ensures Without("☆Foo-", StarMarker) == "Foo-"
  {
    var t := "☆Foo-";
    assert t[0] == StarMarker && t[1..] == "Foo-";
    assert StarMarker !in "Foo-";
    WithoutAbsent("Foo-", StarMarker);
    assert Without(t, StarMarker) == [] + Without(t[1..], StarMarker);
  }

  lemma DashStripped()
    ensures Without("Foo-", DashMarker) == "Foo"
  {
    assert "Foo-"[1..] == "oo-";
    assert "oo-"[1..] == "o-";
    assert "o-"[1..] == "-";
    assert "-"[1..] == [];
  }
}
