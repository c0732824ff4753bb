/**
 * The listing record of the rental-listing scraper and the two identity keys
 * the reconciliation of a refresh cycle compares records by.
 */
module Listings {

  datatype Option<T> = None | Some(value: T)

  /** The `フラグ` column: `-` for a listing seen before, `☆` for a new arrival. */
  datatype Flag = Dash | Star

  /**
   * One scraped listing: `名前` title, `価格` price, `所在地` address, `間取り`
   * floor plan, `専有面積` area, `築年数` age, `取得日` fetch time, `URL` detail
   * link (absent when the page item had no link) and `フラグ` flag. Every field
   * is kept as the raw scraped text.
   */
  datatype Listing = Listing(
    title: string,
    price: string,
    address: string,
    floorPlan: string,
    area: string,
    age: string,
    fetchedAt: string,
    url: Option<string>,
    flag: Flag)

  /** The five fields a new arrival is matched on. */
  datatype Key5 = Key5(price: string, address: string, floorPlan: string, area: string, age: string)

  /** The five fields plus the URL: the key of removal detection and of deduplication. */
  datatype Key6 = Key6(base: Key5, url: Option<string>)

  function KeyOf5(r: Listing): Key5
  {
    Key5(r.price, r.address, r.floorPlan, r.area, r.age)
  }

  function KeyOf6(r: Listing): Key6
  {
    Key6(KeyOf5(r), r.url)
  }

  /** The 5-field keys occurring in a frame. */
  function Keys5(s: seq<Listing>): set<Key5>
  {
    set r | r in s :: KeyOf5(r)
  }

  /** The 6-field keys occurring in a frame. */
  function Keys6(s: seq<Listing>): set<Key6>
  {
    set r | r in s :: KeyOf6(r)
  }

  lemma Keys6Append(s: seq<Listing>, t: seq<Listing>)
    ensures Keys6(s + t) == Keys6(s) + Keys6(t)
  {
    assert forall r :: r in s + t <==> r in s || r in t;
  }

  lemma Keys5Append(s: seq<Listing>, t: seq<Listing>)
    ensures Keys5(s + t) == Keys5(s) + Keys5(t)
  {
    assert forall r :: r in s + t <==> r in s || r in t;
  }

  /** Two records equal on the 6-field key are equal on the 5-field key. */
  lemma Keys6Covers5(s: seq<Listing>, r: Listing)
    requires KeyOf6(r) in Keys6(s)
    ensures KeyOf5(r) in Keys5(s)
  {
    var x :| x in s && KeyOf6(x) == KeyOf6(r);
    assert KeyOf5(x) == KeyOf5(r);
  }

  /** A frame whose 6-field keys all occur in another has its 5-field keys there too. */
  lemma Keys6SubsetCovers5(s: seq<Listing>, t: seq<Listing>)
    requires Keys6(s) <= Keys6(t)
    ensures Keys5(s) <= Keys5(t)
  {
    forall k | k in Keys5(s) ensures k in Keys5(t) {
      var r :| r in s && KeyOf5(r) == k;
      assert KeyOf6(r) in Keys6(s);
      Keys6Covers5(t, r);
    }
  }

  /**
   * Two frames of the same length whose records agree position by position on
   * the 6-field key have the same key sets.
   */
  lemma SameKeysPointwise(s: seq<Listing>, t: seq<Listing>)
    requires |s| == |t|
    requires forall i :: 0 <= i < |s| ==> KeyOf6(s[i]) == KeyOf6(t[i])
    ensures Keys6(s) == Keys6(t) && Keys5(s) == Keys5(t)
  {
    forall k | k in Keys6(s) ensures k in Keys6(t) {
      var x :| x in s && KeyOf6(x) == k;
      var i :| 0 <= i < |s| && s[i] == x;
      assert t[i] in t;
    }
    forall k | k in Keys6(t) ensures k in Keys6(s) {
      var x :| x in t && KeyOf6(x) == k;
      var i :| 0 <= i < |t| && t[i] == x;
      assert s[i] in s;
    }
    forall k | k in Keys5(s) ensures k in Keys5(t) {
      var x :| x in s && KeyOf5(x) == k;
      var i :| 0 <= i < |s| && s[i] == x;
      assert KeyOf5(t[i]) == KeyOf6(t[i]).base;
      assert t[i] in t;
    }
    forall k | k in Keys5(t) ensures k in Keys5(s) {
      var x :| x in t && KeyOf5(x) == k;
      var i :| 0 <= i < |t| && t[i] == x;
      assert KeyOf5(s[i]) == KeyOf6(s[i]).base;
      assert s[i] in s;
    }
  }

  lemma Keys5Snoc(s: seq<Listing>)
    requires s != []
    ensures Keys5(s) == Keys5(s[..|s| - 1]) + {KeyOf5(s[|s| - 1])}
  {
    assert s == s[..|s| - 1] + [s[|s| - 1]];
    Keys5Append(s[..|s| - 1], [s[|s| - 1]]);
    assert Keys5([s[|s| - 1]]) == {KeyOf5(s[|s| - 1])};
  }

  lemma Keys6Snoc(s: seq<Listing>)
    requires s != []
    ensures Keys6(s) == Keys6(s[..|s| - 1]) + {KeyOf6(s[|s| - 1])}
  {
    assert s == s[..|s| - 1] + [s[|s| - 1]];
    Keys6Append(s[..|s| - 1], [s[|s| - 1]]);
    assert Keys6([s[|s| - 1]]) == {KeyOf6(s[|s| - 1])};
  }
}
