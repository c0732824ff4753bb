/**
 * The reconciliation a refresh cycle runs between the stored snapshot of a
 * search and the freshly scraped listings (`save_to_json`, without the storage
 * calls): strip the prior titles, flag the new arrivals, report the removed
 * listings and merge. These functions say what the steps compute; the methods
 * of module Engine carry them out in place and are proved to agree.
 */
module Reconciliation {
  import opened Listings
  import opened Titles
  import opened Dedup

  /** Step 1 on one prior record: only the title changes. */
  function NormaliseRecord(r: Listing): Listing
  {
    r.(title := NormaliseTitle(r.title))
  }

  /** Step 1: the prior frame with every title stripped of its markers. */
  function NormaliseAll(s: seq<Listing>): seq<Listing>
  {
    seq(|s|, i requires 0 <= i < |s| => NormaliseRecord(s[i]))
  }

  /** The first half of step 2: every incoming flag becomes `-`. */
  function Reset(s: seq<Listing>): seq<Listing>
  {
    seq(|s|, i requires 0 <= i < |s| => s[i].(flag := Dash))
  }

  /** The second half of step 2: a record whose URL is among `urls` gets `☆`; the others keep their flag. */
  function Starred(s: seq<Listing>, urls: set<Option<string>>): seq<Listing>
  {
    seq(|s|, i requires 0 <= i < |s| => if s[i].url in urls then s[i].(flag := Star) else s[i])
  }

  /** The URLs of the incoming records that have no 5-field match in the prior frame (the `left_only` rows). */
  function NewArrivalUrls(p: seq<Listing>, q: seq<Listing>): set<Option<string>>
  {
    set r | r in q && KeyOf5(r) !in Keys5(p) :: r.url
  }

  /** Some incoming record with no 5-field match in `p` has the URL `u`. */
  ghost predicate UnmatchedUrl(p: seq<Listing>, q: seq<Listing>, u: Option<string>)
  {
    exists j :: 0 <= j < |q| && KeyOf5(q[j]) !in Keys5(p) && q[j].url == u
  }

  /**
   * Step 2: the incoming frame with its flags reset and, when there is a prior
   * frame, `☆` on every record sharing a URL with an incoming record that has
   * no 5-field match in it. Nothing but the flag changes.
   */
  function FlagIncoming(p: seq<Listing>, q: seq<Listing>): seq<Listing>
  {
    var reset := Reset(q);
    Starred(reset, if |p| == 0 then {} else NewArrivalUrls(p, reset))
  }

  /**
   * Step 2 changes only the flag of each incoming record, and a record ends
   * with `☆` exactly when there is a prior frame and its URL is that of an
   * incoming record with no 5-field match in it.
   */
  lemma FlagIncomingSpec(p: seq<Listing>, q: seq<Listing>)
    ensures var r := FlagIncoming(p, q);
      && |r| == |q|
      && (forall i :: 0 <= i < |q| ==> r[i] == q[i].(flag := r[i].flag))
      && (forall i :: 0 <= i < |q| ==> (r[i].flag == Star <==> |p| > 0 && UnmatchedUrl(p, q, q[i].url)))
  {
    NewArrivalUrlsAfterReset(p, q);
  }

  /** The URLs collected from the reset frame are those of the unmatched incoming records. */
  lemma NewArrivalUrlsAfterReset(p: seq<Listing>, q: seq<Listing>)
    ensures forall u :: u in NewArrivalUrls(p, Reset(q)) <==> UnmatchedUrl(p, q, u)
  {
    var reset := Reset(q);
    forall u ensures u in NewArrivalUrls(p, reset) <==> UnmatchedUrl(p, q, u) {
      if u in NewArrivalUrls(p, reset) {
        var x :| x in reset && KeyOf5(x) !in Keys5(p) && x.url == u;
        var j :| 0 <= j < |reset| && reset[j] == x;
        assert KeyOf5(q[j]) == KeyOf5(x);
      }
      if UnmatchedUrl(p, q, u) {
        var j :| 0 <= j < |q| && KeyOf5(q[j]) !in Keys5(p) && q[j].url == u;
        assert reset[j] in reset && KeyOf5(reset[j]) == KeyOf5(q[j]);
      }
    }
  }

  /**
   * Step 3: the prior records with no 6-field match among the incoming
   * records (the `left_only` rows of the outer join), in prior order.
   */
  function Removed(p: seq<Listing>, q: seq<Listing>): (r: seq<Listing>)
    ensures forall x :: x in r <==> x in p && KeyOf6(x) !in Keys6(q)
    ensures |r| <= |p|
    decreases |p|
  {
    if p == [] then []
    else
      var init, last := p[..|p| - 1], p[|p| - 1];
      assert p == init + [last];
      Removed(init, q) + (if KeyOf6(last) in Keys6(q) then [] else [last])
  }

  /**
   * The report keeps each stored record as often as the stored frame holds
   * it, unless its 6-field key was scraped, and then not at all.
   */
  lemma {:induction false} RemovedCounts(p: seq<Listing>, q: seq<Listing>)
    ensures forall x :: multiset(Removed(p, q))[x] == if KeyOf6(x) in Keys6(q) then 0 else multiset(p)[x]
    decreases |p|
  {
    if p != [] {
      var init, last := p[..|p| - 1], p[|p| - 1];
      assert p == init + [last];
      RemovedCounts(init, q);
      assert Removed(p, q) == Removed(init, q) + (if KeyOf6(last) in Keys6(q) then [] else [last]);
      assert multiset(p) == multiset(init) + multiset{last};
    }
  }

  /** Against an empty scrape every stored record is reported, in stored order. */
  lemma {:induction false} RemovedAgainstEmpty(p: seq<Listing>)
    ensures Removed(p, []) == p
    decreases |p|
  {
    if p != [] {
      RemovedAgainstEmpty(p[..|p| - 1]);
      assert p == p[..|p| - 1] + [p[|p| - 1]];
    }
  }

  /** What one reconciliation produces: the new snapshot and the removal report. */
  datatype Reconciled = Reconciled(merged: seq<Listing>, removed: seq<Listing>)

  /**
   * The four steps in the order the source runs them. The removal report is
   * only computed when there is a prior frame; the flags and the merge use the
   * stripped prior frame and the flagged incoming frame.
   */
  function Reconcile(prior: seq<Listing>, incoming: seq<Listing>): Reconciled
  {
    var p := NormaliseAll(prior);
    var q := FlagIncoming(p, incoming);
    Reconciled(DropDuplicates(p + q), if |p| == 0 then [] else Removed(p, q))
  }

  // ---------------------------------------------------------------------------
  // Step 1: title normalisation

  /**
   * After step 1 no prior title holds a marker, every other field is as it
   * was (the flag included), the keys are those of the input, and a second
   * normalisation changes nothing.
   */
  lemma NormaliseAllProperties(s: seq<Listing>)
    ensures var r := NormaliseAll(s);
      && |r| == |s|
      && (forall i :: 0 <= i < |s| ==>
            StarMarker !in r[i].title && DashMarker !in r[i].title && r[i] == s[i].(title := r[i].title))
      && Keys5(r) == Keys5(s) && Keys6(r) == Keys6(s)
      && NormaliseAll(r) == r
  {
    var r := NormaliseAll(s);
    SameKeysPointwise(r, s);
    forall i | 0 <= i < |r| ensures StarMarker !in r[i].title && DashMarker !in r[i].title {
      NormaliseTitleSpec(s[i].title);
    }
    forall i | 0 <= i < |r| ensures NormaliseRecord(r[i]) == r[i] {
      NormaliseCleanTitle(r[i].title);
    }
  }

  /** Step 1 keeps the 6-field keys position by position, so a frame with distinct keys keeps them distinct. */
  lemma NormaliseAllKeepsUnique(s: seq<Listing>)
    requires UniqueKeys(s)
    ensures UniqueKeys(NormaliseAll(s))
  {
    var r := NormaliseAll(s);
    assert forall i :: 0 <= i < |s| ==> KeyOf6(r[i]) == KeyOf6(s[i]);
  }

  // ---------------------------------------------------------------------------
  // Step 2: flagging new arrivals

  /** Step 2 changes no key. */
  lemma FlagIncomingKeys(p: seq<Listing>, q: seq<Listing>)
    ensures Keys6(FlagIncoming(p, q)) == Keys6(q) && Keys5(FlagIncoming(p, q)) == Keys5(q)
  {
    FlagIncomingSpec(p, q);
    var r := FlagIncoming(p, q);
    assert forall i :: 0 <= i < |q| ==> KeyOf6(r[i]) == KeyOf6(q[i]);
    SameKeysPointwise(r, q);
  }

  /** With no prior snapshot nothing is starred and nothing is reported removed. */
  lemma EmptyPriorStarsNothing(incoming: seq<Listing>)
    ensures forall x :: x in FlagIncoming([], incoming) ==> x.flag == Dash
    ensures Reconcile([], incoming).removed == []
    ensures Reconcile([], incoming).merged == DropDuplicates(FlagIncoming([], incoming))
  {
    FlagIncomingSpec([], incoming);
    assert NormaliseAll([]) == [];
    assert [] + FlagIncoming([], incoming) == FlagIncoming([], incoming);
  }

  /** With a prior snapshot, every incoming record with no 5-field match in it is starred. */
  lemma UnmatchedIsStarred(p: seq<Listing>, q: seq<Listing>, i: nat)
    requires |p| > 0 && i < |q| && KeyOf5(q[i]) !in Keys5(p)
    ensures FlagIncoming(p, q)[i].flag == Star
  {
    FlagIncomingSpec(p, q);
  }

  /** Distinct URLs among the incoming records. */
  ghost predicate DistinctUrls(q: seq<Listing>)
  {
    forall i, j :: 0 <= i < j < |q| ==> q[i].url != q[j].url
  }

  /**
   * When the incoming URLs are distinct, flagging by URL stars exactly the
   * records with no 5-field match in the prior frame.
   */
  lemma DistinctUrlsStarExactlyUnmatched(p: seq<Listing>, q: seq<Listing>)
    requires |p| > 0 && DistinctUrls(q)
    ensures forall i :: 0 <= i < |q| ==>
      (FlagIncoming(p, q)[i].flag == Star <==> KeyOf5(q[i]) !in Keys5(p))
  {
    FlagIncomingSpec(p, q);
    var r := FlagIncoming(p, q);
    forall i | 0 <= i < |q| ensures r[i].flag == Star ==> KeyOf5(q[i]) !in Keys5(p) {
      if r[i].flag == Star {
        var j :| 0 <= j < |q| && KeyOf5(q[j]) !in Keys5(p) && q[j].url == q[i].url;
        assert i == j;
      }
    }
  }

  /**
   * A URL shared by a matched and an unmatched incoming record stars both: the
   * flag goes by URL, not by row.
   */
  lemma SharedUrlStarsMatchedRecord(p: seq<Listing>, q: seq<Listing>, i: nat, j: nat)
    requires |p| > 0 && i < |q| && j < |q|
    requires KeyOf5(q[j]) !in Keys5(p) && q[i].url == q[j].url
    ensures FlagIncoming(p, q)[i].flag == Star
  {
    FlagIncomingSpec(p, q);
  }

  // ---------------------------------------------------------------------------
  // Step 3: removal report

  /**
   * The report lists exactly the stripped prior records with no 6-field match
   * among the incoming records; so none of them has such a match.
   */
  lemma RemovedExactly(prior: seq<Listing>, incoming: seq<Listing>)
    ensures var R := Reconcile(prior, incoming);
      forall x :: x in R.removed <==> x in NormaliseAll(prior) && KeyOf6(x) !in Keys6(incoming)
  {
    var p := NormaliseAll(prior);
    FlagIncomingKeys(p, incoming);
  }

  // ---------------------------------------------------------------------------
  // Step 4: merge

  /**
   * The merged snapshot is the deduplicated stripped prior frame followed by
   * the flagged incoming records whose 6-field key occurs neither in the prior
   * frame nor earlier in the incoming frame.
   */
  lemma MergedShape(prior: seq<Listing>, incoming: seq<Listing>)
    ensures var p := NormaliseAll(prior);
      var q := FlagIncoming(p, incoming);
      && Reconcile(prior, incoming).merged == DropDuplicates(p) + KeepFirst(q, Keys6(prior))
      && forall x :: x in KeepFirst(q, Keys6(prior)) <==> exists j :: FirstAt(q, Keys6(prior), x, j)
  {
    var p := NormaliseAll(prior);
    var q := FlagIncoming(p, incoming);
    NormaliseAllProperties(prior);
    KeepFirstAppend(p, q, {});
    assert {} + Keys6(p) == Keys6(prior);
    forall x ensures x in KeepFirst(q, Keys6(prior)) <==> exists j :: FirstAt(q, Keys6(prior), x, j) {
      KeepFirstMember(q, Keys6(prior), x);
    }
  }

  /** No two records of the merged snapshot share a 6-field key. */
  lemma MergedUnique(prior: seq<Listing>, incoming: seq<Listing>)
    ensures UniqueKeys(Reconcile(prior, incoming).merged)
  {
    var p := NormaliseAll(prior);
    KeepFirstUnique(p + FlagIncoming(p, incoming), {});
  }

  /** The merged snapshot carries every prior key and every incoming key, and no other. */
  lemma MergedKeys(prior: seq<Listing>, incoming: seq<Listing>)
    ensures Keys6(Reconcile(prior, incoming).merged) == Keys6(prior) + Keys6(incoming)
  {
    var p := NormaliseAll(prior);
    var q := FlagIncoming(p, incoming);
    KeepFirstKeys(p + q, {});
    Keys6Append(p, q);
    NormaliseAllProperties(prior);
    FlagIncomingKeys(p, incoming);
  }

  /** The merged snapshot has one record per distinct key, so never fewer than the prior keys. */
  lemma MergedSize(prior: seq<Listing>, incoming: seq<Listing>)
    ensures |Reconcile(prior, incoming).merged| == |Keys6(prior) + Keys6(incoming)|
    ensures |Reconcile(prior, incoming).merged| >= |Keys6(prior)|
  {
    var p := NormaliseAll(prior);
    var q := FlagIncoming(p, incoming);
    var all := Keys6(prior) + Keys6(incoming);
    Keys6Append(p, q);
    NormaliseAllProperties(prior);
    FlagIncomingKeys(p, incoming);
    assert Keys6(p + q) - {} == all;
    KeepFirstSize(p + q, {});
    SubsetSize(Keys6(prior), all);
  }

  lemma SubsetSize<T>(a: set<T>, b: set<T>)
    requires a <= b
    ensures |a| <= |b|
  {
    assert b == a + (b - a);
  }

  /**
   * Prior records win: every merged record with a prior key is a stripped
   * prior record, so it keeps the flag it was stored with; every other merged
   * record is a flagged incoming record.
   */
  lemma PriorWins(prior: seq<Listing>, incoming: seq<Listing>)
    ensures var merged := Reconcile(prior, incoming).merged;
      forall x :: x in merged ==>
        if KeyOf6(x) in Keys6(prior)
        then exists i :: 0 <= i < |prior| && x == NormaliseRecord(prior[i]) && x.flag == prior[i].flag
        else x in FlagIncoming(NormaliseAll(prior), incoming)
  {
    var p := NormaliseAll(prior);
    var q := FlagIncoming(p, incoming);
    var merged := Reconcile(prior, incoming).merged;
    MergedShape(prior, incoming);
    forall x | x in merged ensures
      if KeyOf6(x) in Keys6(prior)
      then exists i :: 0 <= i < |prior| && x == NormaliseRecord(prior[i]) && x.flag == prior[i].flag
      else x in q
    {
      KeepFirstMember(p, {}, x);
      KeepFirstMember(q, Keys6(prior), x);
      if x in DropDuplicates(p) {
        var i :| FirstAt(p, {}, x, i);
        assert x == NormaliseRecord(prior[i]);
        NormaliseAllProperties(prior);
        assert p[i] in p;
      } else {
        assert x in KeepFirst(q, Keys6(prior));
      }
    }
  }

  /**
   * New arrivals survive: with a prior snapshot, every incoming record with no
   * 5-field match in it is represented in the merged snapshot by a starred
   * record with its 6-field key.
   */
  lemma NewArrivalsSurvive(prior: seq<Listing>, incoming: seq<Listing>, j: nat)
    requires |prior| > 0 && j < |incoming| && KeyOf5(incoming[j]) !in Keys5(prior)
    ensures exists x :: x in Reconcile(prior, incoming).merged && KeyOf6(x) == KeyOf6(incoming[j]) && x.flag == Star
  {
    var p := NormaliseAll(prior);
    var q := FlagIncoming(p, incoming);
    var merged := Reconcile(prior, incoming).merged;
    assert KeyOf6(incoming[j]) in Keys6(merged) by {
      MergedKeys(prior, incoming);
      assert incoming[j] in incoming;
    }
    var x :| x in merged && KeyOf6(x) == KeyOf6(incoming[j]);
    assert KeyOf6(x) !in Keys6(prior) by {
      if KeyOf6(x) in Keys6(prior) {
        Keys6Covers5(prior, incoming[j]);
      }
    }
    assert x in q by {
      PriorWins(prior, incoming);
    }
    var k :| 0 <= k < |q| && q[k] == x;
    assert x.flag == Star by {
      FlagIncomingSpec(p, incoming);
      assert Keys5(p) == Keys5(prior) by {
        NormaliseAllProperties(prior);
      }
      assert KeyOf5(incoming[k]) == KeyOf5(x);
      assert UnmatchedUrl(p, incoming, incoming[k].url);
    }
  }

  /**
   * The first prior record of each 6-field key is in the merged snapshot as it
   * was stored, apart from its stripped title.
   */
  lemma FirstPriorRecordsKept(prior: seq<Listing>, incoming: seq<Listing>, i: nat)
    requires i < |prior| && KeyOf6(prior[i]) !in Keys6(prior[..i])
    ensures NormaliseRecord(prior[i]) in Reconcile(prior, incoming).merged
  {
    var p := NormaliseAll(prior);
    MergedShape(prior, incoming);
    assert p[..i] == NormaliseAll(prior[..i]);
    NormaliseAllProperties(prior[..i]);
    assert FirstAt(p, {}, p[i], i);
    FirstIsKept(p, {}, p[i], i);
  }

  /**
   * Removed listings stay: the key of every reported record is still in the
   * merged snapshot, and when the prior keys were distinct (as in any merged
   * snapshot) the reported record itself is there.
   */
  lemma RemovedStayInMerged(prior: seq<Listing>, incoming: seq<Listing>)
    ensures var R := Reconcile(prior, incoming);
      forall x :: x in R.removed ==> KeyOf6(x) in Keys6(R.merged)
    ensures UniqueKeys(prior) ==>
      var R := Reconcile(prior, incoming);
      forall x :: x in R.removed ==> x in R.merged
  {
    var R := Reconcile(prior, incoming);
    var p := NormaliseAll(prior);
    RemovedExactly(prior, incoming);
    MergedKeys(prior, incoming);
    NormaliseAllProperties(prior);
    if UniqueKeys(prior) {
      forall x | x in R.removed ensures x in R.merged {
        var i :| 0 <= i < |p| && p[i] == x;
        FirstPriorRecordsKept(prior, incoming, i);
      }
    }
  }

  // ---------------------------------------------------------------------------
  // Running the same refresh twice

  /** When the prior frame already carries every incoming 5-field key, nothing is starred. */
  lemma CoveredPriorStarsNothing(prior: seq<Listing>, incoming: seq<Listing>)
    requires Keys5(incoming) <= Keys5(prior)
    ensures forall x :: x in FlagIncoming(NormaliseAll(prior), incoming) ==> x.flag == Dash
  {
    FlagIncomingSpec(NormaliseAll(prior), incoming);
    NormaliseAllProperties(prior);
    forall j | 0 <= j < |incoming| ensures KeyOf5(incoming[j]) in Keys5(prior) {
      assert incoming[j] in incoming;
    }
  }

  /**
   * When the prior frame has distinct keys and already carries every incoming
   * 6-field key, the merge adds nothing: the new snapshot is the prior frame
   * with its titles stripped.
   */
  lemma CoveredPriorAddsNothing(prior: seq<Listing>, incoming: seq<Listing>)
    requires UniqueKeys(prior) && Keys6(incoming) <= Keys6(prior)
    ensures Reconcile(prior, incoming).merged == NormaliseAll(prior)
  {
    var n := NormaliseAll(prior);
    var q := FlagIncoming(n, incoming);
    NormaliseAllProperties(prior);
    NormaliseAllKeepsUnique(prior);
    FlagIncomingKeys(n, incoming);
    KeepFirstAppend(n, q, {});
    KeepFirstAllSeen(q, {} + Keys6(n));
    KeepFirstOfUnique(n, {});
    assert DropDuplicates(n + q) == n + [];
  }

  /** The keys of the removal report are the prior keys the incoming records lack. */
  lemma RemovedKeys(prior: seq<Listing>, incoming: seq<Listing>)
    ensures Keys6(Reconcile(prior, incoming).removed) == Keys6(prior) - Keys6(incoming)
  {
    var R := Reconcile(prior, incoming);
    var n := NormaliseAll(prior);
    RemovedExactly(prior, incoming);
    NormaliseAllProperties(prior);
    forall k ensures k in Keys6(R.removed) <==> k in Keys6(prior) - Keys6(incoming) {
      if k in Keys6(prior) - Keys6(incoming) {
        assert k in Keys6(n);
        var x :| x in n && KeyOf6(x) == k;
        assert x in R.removed;
      }
    }
  }

  /**
   * Re-running reconciliation with the merged snapshot as the prior and the
   * same incoming records stars nothing and adds no record: the new snapshot
   * is the old one with its titles stripped. The removal report is not empty
   * in general: it lists again every prior key that the incoming records lack.
   */
  lemma RerunIsStable(prior: seq<Listing>, incoming: seq<Listing>)
    ensures var m := Reconcile(prior, incoming).merged;
      var R2 := Reconcile(m, incoming);
      && (forall x :: x in FlagIncoming(NormaliseAll(m), incoming) ==> x.flag == Dash)
      && R2.merged == NormaliseAll(m)
      && |R2.merged| == |m|
      && Keys6(R2.removed) == Keys6(prior) - Keys6(incoming)
  {
    var m := Reconcile(prior, incoming).merged;
    MergedKeys(prior, incoming);
    MergedUnique(prior, incoming);
    Keys6SubsetCovers5(incoming, m);
    CoveredPriorStarsNothing(m, incoming);
    CoveredPriorAddsNothing(m, incoming);
    RemovedKeys(m, incoming);
    assert Keys6(m) - Keys6(incoming) == Keys6(prior) - Keys6(incoming);
  }

  // ---------------------------------------------------------------------------
  // Worked cases

  /** A fixed listing used by the worked cases. */
  function Sample(title: string, url: Option<string>, flag: Flag): Listing
  {
    Listing(title, "8.5万円", "東京都町田市", "1K", "25m2", "築5年", "2024-01-01T00:00:00", url, flag)
  }

  /** The first refresh of a search: nothing is starred (the code skips flagging without a prior snapshot). */
  lemma FirstRefreshStarsNothing()
    ensures var l := Sample("Foo", Some("https://suumo.jp/a"), Dash);
      Reconcile([], [l.(flag := Star)]) == Reconciled([l], [])
  {
    FlagIncomingSpec([], [Sample("Foo", Some("https://suumo.jp/a"), Dash).(flag := Star)]);
    var l := Sample("Foo", Some("https://suumo.jp/a"), Dash);
    var q := FlagIncoming([], [l.(flag := Star)]);
    assert q == [l];
    assert NormaliseAll([]) == [];
    assert [] + q == [l];
    assert DropDuplicates([l]) == KeepFirst([], {}) + [l];
  }

  /**
   * A listing scraped again with the same 6-field key is matched: the stored
   * record stays (title stripped, flag as stored), none is added, none removed.
   */
  lemma SameListingAgain(stored: Listing, scraped: Listing)
    requires KeyOf6(stored) == KeyOf6(scraped)
    ensures Reconcile([stored], [scraped]) == Reconciled([NormaliseRecord(stored)], [])
  {
    var p := NormaliseAll([stored]);
    assert p == [NormaliseRecord(stored)];
    var q := FlagIncoming(p, [scraped]);
    assert KeyOf5(p[0]) == KeyOf6(stored).base == KeyOf5(scraped);
    assert KeyOf5(scraped) in Keys5(p);
    assert q == [scraped.(flag := Dash)] by {
      FlagIncomingSpec(p, [scraped]);
      assert !UnmatchedUrl(p, [scraped], scraped.url);
    }
    assert Removed(p, q) == [] by {
      assert KeyOf6(q[0]) in Keys6(q);
    }
    assert Keys6([scraped]) <= Keys6([stored]);
    CoveredPriorAddsNothing([stored], [scraped]);
  }

  /** A decorated prior title is stripped, and the stored record wins over the identical incoming one. */
  lemma DecoratedPriorTitleMatches()
    ensures var stored := Sample("☆Foo-", Some("https://suumo.jp/a"), Dash);
      var scraped := Sample("Foo", Some("https://suumo.jp/a"), Dash);
      Reconcile([stored], [scraped]) == Reconciled([scraped], [])
  {
    var stored := Sample("☆Foo-", Some("https://suumo.jp/a"), Dash);
    var scraped := Sample("Foo", Some("https://suumo.jp/a"), Dash);
    assert NormaliseRecord(stored) == scraped by {
      DecoratedTitleStripped();
      assert stored.title == "☆Foo-";
    }
    SameListingAgain(stored, scraped);
  }
}
