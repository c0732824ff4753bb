/**
 * `save_to_json` as its code stands, failures included. Two of its pandas
 * joins carry a non-key column present in both frames, which pandas renames
 * with `_x`/`_y` suffixes, so the later lookup of the plain column name
 * raises `KeyError`; and an empty scrape builds a frame without key columns,
 * which the join with a stored snapshot cannot use. With nothing stored and
 * nothing scraped the frame at line 139 is empty, `drop_duplicates` returns it
 * unexamined, and the empty snapshot is saved.
 * The evidently intended behaviour is `Reconciliation.Reconcile`, and the
 * lemmas below set the two side by side.
 */
module AsWritten {
  import opened Listings
  import opened Dedup
  import opened Reconciliation

  /** The `KeyError`s the code raises before the snapshot is saved. */
  datatype KeyError =
    | NoKeyColumns   // an empty scrape has no key columns for the join with a stored snapshot (line 126)
    | NoUrlColumn    // line 128: after the join of line 126 the URL columns are `URL_x` and `URL_y`
    | NoTitleColumn  // line 136: after the join of line 132 the title columns are `名前_x` and `名前_y`

  /** Either the snapshot handed to storage or the error that stopped the cycle. */
  datatype Outcome = Saved(snapshot: seq<Listing>) | Raised(error: KeyError)

  /** One refresh of a search as the code is written. */
  function SaveToJson(existing: seq<Listing>, data: seq<Listing>): Outcome
  {
    if |existing| > 0 && |data| == 0 then Raised(NoKeyColumns)
    else if |existing| > 0 then Raised(NoUrlColumn)
    else Saved(Reconcile(existing, data).merged)
  }

  /**
   * The same refresh with only line 128 reading the incoming URL column: the
   * display of the removal report at line 136 then raises whenever something
   * was removed.
   */
  function SaveToJsonUrlFixed(existing: seq<Listing>, data: seq<Listing>): Outcome
  {
    var R := Reconcile(existing, data);
    if |existing| > 0 && |data| == 0 then Raised(NoKeyColumns)
    else if R.removed != [] then Raised(NoTitleColumn)
    else Saved(R.merged)
  }

  /**
   * As written, only the first refresh of a search (no stored snapshot) is
   * saved, and then with no listing starred.
   */
  lemma OnlyFirstRefreshSaves(existing: seq<Listing>, data: seq<Listing>)
    ensures SaveToJson(existing, data).Saved? <==> existing == []
    ensures SaveToJson(existing, data).Saved? ==>
      && SaveToJson(existing, data).snapshot == Reconcile(existing, data).merged
      && forall x :: x in SaveToJson(existing, data).snapshot ==> x.flag == Dash
  {
    if existing == [] {
      EmptyPriorStarsNothing(data);
      assert NormaliseAll([]) == [];
      forall x | x in Reconcile(existing, data).merged ensures x.flag == Dash {
        KeepFirstMember(FlagIncoming([], data), {}, x);
      }
    }
  }

  /**
   * Even with line 128 corrected, a snapshot is saved only when every stored
   * listing reappeared with the same 6-field key: a listing that disappeared
   * is never persisted, against the intent that removed listings stay.
   */
  lemma UrlFixedSavesOnlyWithoutRemovals(existing: seq<Listing>, data: seq<Listing>)
    ensures SaveToJsonUrlFixed(existing, data).Saved? ==> Keys6(existing) <= Keys6(data)
  {
    var R := Reconcile(existing, data);
    if SaveToJsonUrlFixed(existing, data).Saved? {
      assert R.removed == [];
      RemovedKeys(existing, data);
      assert Keys6(existing) - Keys6(data) == {};
      forall k | k in Keys6(existing) ensures k in Keys6(data) {
        assert k !in Keys6(existing) - Keys6(data);
      }
    }
  }

  /**
   * The second refresh of a search raises at line 128, where the intended
   * reconciliation saves the stored listing and the new one, stars the new one
   * and reports the stored one as removed.
   */
  lemma SecondRefreshRaises(before: Listing, after: Listing)
    requires KeyOf5(before) != KeyOf5(after)
    ensures SaveToJson([before], [after]) == Raised(NoUrlColumn)
    ensures var R := Reconcile([before], [after]);
      && R.merged == [NormaliseRecord(before), after.(flag := Star)]
      && R.removed == [NormaliseRecord(before)]
  {
    var p := NormaliseAll([before]);
    assert p == [NormaliseRecord(before)];
    assert KeyOf5(p[0]) == KeyOf5(before);
    var q := FlagIncoming(p, [after]);
    assert KeyOf5(after) !in Keys5(p);
    FlagIncomingSpec(p, [after]);
    UnmatchedIsStarred(p, [after], 0);
    assert q == [after.(flag := Star)];
    assert KeyOf6(q[0]) != KeyOf6(p[0]);
    KeepFirstAppend(p, q, {});
    assert KeepFirst(p, {}) == KeepFirst([], {}) + p;
    assert KeepFirst(q, {} + Keys6(p)) == KeepFirst([], {} + Keys6(p)) + q;
    assert Keys6(q) == {KeyOf6(q[0])};
    assert Removed(p, q) == Removed([], q) + p;
  }

  /**
   * With line 128 corrected, the same refresh raises at line 136 because a
   * listing was removed; the intended reconciliation keeps it in the snapshot.
   */
  lemma RemovalReportRaises(before: Listing, after: Listing)
    requires KeyOf5(before) != KeyOf5(after)
    ensures SaveToJsonUrlFixed([before], [after]) == Raised(NoTitleColumn)
    ensures NormaliseRecord(before) in Reconcile([before], [after]).removed
    ensures NormaliseRecord(before) in Reconcile([before], [after]).merged
  {
    SecondRefreshRaises(before, after);
  }

  /** The failing input: a listing whose rent changed between two refreshes. */
  lemma RentChangeRaises()
    ensures var before := Sample("Foo", Some("https://suumo.jp/a"), Dash);
      var after := before.(price := "9.0万円");
      && SaveToJson([before], [after]) == Raised(NoUrlColumn)
      && SaveToJsonUrlFixed([before], [after]) == Raised(NoTitleColumn)
  {
    var before := Sample("Foo", Some("https://suumo.jp/a"), Dash);
    var after := before.(price := "9.0万円");
    assert before.price != after.price;
    RemovalReportRaises(before, after);
  }

  /**
   * An empty scrape raises for every non-empty stored snapshot, where the
   * intended reconciliation keeps every stored key and reports every stored
   * listing as removed; with nothing stored the empty snapshot is saved.
   */
  lemma EmptyScrapeRaises(existing: seq<Listing>)
    ensures existing != [] ==> SaveToJson(existing, []) == Raised(NoKeyColumns)
    ensures existing == [] ==> SaveToJson(existing, []) == Saved([])
    ensures Keys6(Reconcile(existing, []).merged) == Keys6(existing)
    ensures existing != [] ==> Reconcile(existing, []).removed == NormaliseAll(existing)
  {
    MergedKeys(existing, []);
    assert Keys6([]) == {};
    if existing == [] {
      assert NormaliseAll([]) == [] && FlagIncoming([], []) == [];
      assert Reconcile([], []).merged == KeepFirst([], {});
    } else {
      assert FlagIncoming(NormaliseAll(existing), []) == [];
      RemovedAgainstEmpty(NormaliseAll(existing));
    }
  }
}
