/**
 * The reconciliation of `save_to_json` as the source runs it: the prior and
 * the incoming frames are updated in place column by column, the removal
 * report is a scan of the prior frame, and the concatenated frame is
 * deduplicated in place. Each step is proved against the function of module
 * Reconciliation that says what it computes.
 */
module Engine {
  import opened Listings
  import opened Titles
  import opened Dedup
  import opened Reconciliation

  /** Step 1: the title column of the prior frame is overwritten with the stripped titles. */
  method StripPriorTitles(prior: array<Listing>)
    modifies prior
    ensures prior[..] == NormaliseAll(old(prior[..]))
  {
    ghost var s := prior[..];
    var i := 0;
    while i < prior.Length
      invariant 0 <= i <= prior.Length
      invariant forall k :: 0 <= k < i ==> prior[k] == NormaliseRecord(s[k])
      invariant forall k :: i <= k < prior.Length ==> prior[k] == s[k]
    {
      prior[i] := NormaliseRecord(prior[i]);
      i := i + 1;
    }
  }

  /** Step 2, first half: the flag column of the incoming frame is set to `-`. */
  method ResetFlagColumn(incoming: array<Listing>)
    modifies incoming
    ensures incoming[..] == Reset(old(incoming[..]))
  {
    ghost var s := incoming[..];
    var i := 0;
    while i < incoming.Length
      invariant 0 <= i <= incoming.Length
      invariant forall k :: 0 <= k < i ==> incoming[k] == s[k].(flag := Dash)
      invariant forall k :: i <= k < incoming.Length ==> incoming[k] == s[k]
    {
      incoming[i] := incoming[i].(flag := Dash);
      i := i + 1;
    }
    assert forall k :: 0 <= k < incoming.Length ==> incoming[..][k] == Reset(s)[k];
  }

  /**
   * Step 2, the left join: the URLs of the incoming records whose 5-field key
   * has no match in the prior frame.
   */
  method CollectNewArrivalUrls(prior: array<Listing>, incoming: array<Listing>) returns (urls: set<Option<string>>)
    ensures urls == NewArrivalUrls(prior[..], incoming[..])
    ensures forall u :: u in urls <==> exists j :: 0 <= j < incoming.Length && KeyOf5(incoming[j]) !in Keys5(prior[..]) && incoming[j].url == u
  {
    var priorKeys: set<Key5> := {};
    var i := 0;
    while i < prior.Length
      invariant 0 <= i <= prior.Length
      invariant priorKeys == Keys5(prior[..i])
    {
      Keys5Snoc(prior[..i + 1]);
      assert prior[..i + 1][..i] == prior[..i];
      priorKeys := priorKeys + {KeyOf5(prior[i])};
      i := i + 1;
    }
    assert prior[..i] == prior[..];
    urls := {};
    var j := 0;
    while j < incoming.Length
      invariant 0 <= j <= incoming.Length
      invariant urls == NewArrivalUrls(prior[..], incoming[..j])
    {
      assert incoming[..j + 1] == incoming[..j] + [incoming[j]];
      if KeyOf5(incoming[j]) !in priorKeys {
        urls := urls + {incoming[j].url};
      }
      j := j + 1;
    }
    assert incoming[..j] == incoming[..];
    forall u ensures u in urls <==> exists j :: 0 <= j < incoming.Length && KeyOf5(incoming[j]) !in Keys5(prior[..]) && incoming[j].url == u {
      if u in urls {
        var x :| x in incoming[..] && KeyOf5(x) !in Keys5(prior[..]) && x.url == u;
        var j :| 0 <= j < incoming.Length && incoming[j] == x;
      }
      if exists j :: 0 <= j < incoming.Length && KeyOf5(incoming[j]) !in Keys5(prior[..]) && incoming[j].url == u {
        var j :| 0 <= j < incoming.Length && KeyOf5(incoming[j]) !in Keys5(prior[..]) && incoming[j].url == u;
        assert incoming[..][j] in incoming[..];
      }
    }
  }

  /** Step 2, the `.loc` assignment: every incoming record whose URL is collected gets `☆`. */
  method StarByUrl(incoming: array<Listing>, urls: set<Option<string>>)
    modifies incoming
    ensures incoming[..] == Starred(old(incoming[..]), urls)
  {
    ghost var s := incoming[..];
    var i := 0;
    while i < incoming.Length
      invariant 0 <= i <= incoming.Length
      invariant forall k :: 0 <= k < i ==> incoming[k] == if s[k].url in urls then s[k].(flag := Star) else s[k]
      invariant forall k :: i <= k < incoming.Length ==> incoming[k] == s[k]
    {
      if incoming[i].url in urls {
        incoming[i] := incoming[i].(flag := Star);
      }
      i := i + 1;
    }
    assert forall k :: 0 <= k < incoming.Length ==> incoming[..][k] == Starred(s, urls)[k];
  }

  /**
   * Step 3: the prior records with no 6-field match among the incoming
   * records, in prior order.
   */
  method DetectRemovals(prior: array<Listing>, incoming: array<Listing>) returns (removed: seq<Listing>)
    ensures removed == Removed(prior[..], incoming[..])
    ensures forall x :: x in removed <==> x in prior[..] && KeyOf6(x) !in Keys6(incoming[..])
  {
    var incomingKeys: set<Key6> := {};
    var j := 0;
    while j < incoming.Length
      invariant 0 <= j <= incoming.Length
      invariant incomingKeys == Keys6(incoming[..j])
    {
      Keys6Snoc(incoming[..j + 1]);
      assert incoming[..j + 1][..j] == incoming[..j];
      incomingKeys := incomingKeys + {KeyOf6(incoming[j])};
      j := j + 1;
    }
    assert incoming[..j] == incoming[..];
    removed := [];
    var i := 0;
    while i < prior.Length
      invariant 0 <= i <= prior.Length
      invariant removed == Removed(prior[..i], incoming[..])
    {
      assert prior[..i + 1][..i] == prior[..i];
      if KeyOf6(prior[i]) !in incomingKeys {
        removed := removed + [prior[i]];
      }
      i := i + 1;
    }
    assert prior[..i] == prior[..];
  }

  /**
   * Step 4, `drop_duplicates(..., keep='first', inplace=True)`: the records
   * that are the first of their 6-field key are moved to the front of the
   * frame, in order, and their number is returned.
   */
  method DropDuplicatesInPlace(a: array<Listing>) returns (n: nat)
    modifies a
    ensures n <= a.Length
    ensures a[..n] == DropDuplicates(old(a[..]))
  {
    ghost var s := a[..];
    var seen: set<Key6> := {};
    var i, w := 0, 0;
    while i < a.Length
      invariant 0 <= w <= i <= a.Length
      invariant a[..w] == KeepFirst(s[..i], {})
      invariant forall k :: i <= k < a.Length ==> a[k] == s[k]
      invariant seen == Keys6(s[..i])
    {
      KeepFirstStep(s, i);
      var k := KeyOf6(a[i]);
      if k !in seen {
        ghost var kept := a[..w];
        a[w] := a[i];
        assert a[..w + 1] == kept + [s[i]];
        w := w + 1;
      }
      seen := seen + {k};
      i := i + 1;
    }
    assert s[..i] == s;
    n := w;
  }

  /**
   * The reconciliation of one refresh cycle: the prior frame ends with
   * stripped titles, the incoming frame with its flags, and the merged
   * snapshot and the removal report are those of `Reconciliation.Reconcile`.
   */
  method Reconcile(prior: array<Listing>, incoming: array<Listing>) returns (merged: seq<Listing>, removed: seq<Listing>)
    requires prior != incoming
    modifies prior, incoming
    ensures prior[..] == NormaliseAll(old(prior[..]))
    ensures incoming[..] == FlagIncoming(prior[..], old(incoming[..]))
    ensures Reconciled(merged, removed) == Reconciliation.Reconcile(old(prior[..]), old(incoming[..]))
  {
    ghost var p0, q0 := prior[..], incoming[..];
    StripPriorTitles(prior);
    ghost var p := prior[..];
    ResetFlagColumn(incoming);
    ghost var urls: set<Option<string>> := {};
    if prior.Length > 0 {
      var collected := CollectNewArrivalUrls(prior, incoming);
      urls := collected;
      StarByUrl(incoming, collected);
    }
    ghost var q := incoming[..];
    assert q == Starred(Reset(q0), if |p| == 0 then {} else NewArrivalUrls(p, Reset(q0)));
    assert q == FlagIncoming(p, q0);
    removed := [];
    if prior.Length > 0 {
      removed := DetectRemovals(prior, incoming);
    }
    assert removed == if |p| == 0 then [] else Removed(p, q);
    var frame := prior[..] + incoming[..];
    var all := new Listing[|frame|](k requires 0 <= k < |frame| => frame[k]);
    assert all[..] == p + q;
    var n := DropDuplicatesInPlace(all);
    merged := all[..n];
    assert merged == DropDuplicates(p + q);
  }
}
