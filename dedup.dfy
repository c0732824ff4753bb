/**
 * `drop_duplicates(subset=<6-field key>, keep='first')`: of the records sharing
 * a 6-field key only the first one stays, in the order of the frame.
 */
module Dedup {
  import opened Listings

  /**
   * The records of `s` that are the first of their 6-field key, where the keys
   * in `seen` count as taken already. It is defined from the end of the frame,
   * so that it grows the way a front-to-back scan does.
   */
  function KeepFirst(s: seq<Listing>, seen: set<Key6>): seq<Listing>
    decreases |s|
  {
    if s == [] then []
    else
      var init := s[..|s| - 1];
      var last := s[|s| - 1];
      KeepFirst(init, seen) + (if KeyOf6(last) in seen + Keys6(init) then [] else [last])
  }

  /** The frame left by `drop_duplicates(..., keep='first')`. */
  function DropDuplicates(s: seq<Listing>): seq<Listing>
  {
    KeepFirst(s, {})
  }

  /** No two records of `s` share a 6-field key. */
  ghost predicate UniqueKeys(s: seq<Listing>)
  {
    forall i, j :: 0 <= i < j < |s| ==> KeyOf6(s[i]) != KeyOf6(s[j])
  }

  /** Deduplication keeps every key not taken already, and no other. */
  lemma {:induction false} KeepFirstKeys(s: seq<Listing>, seen: set<Key6>)
    ensures Keys6(KeepFirst(s, seen)) == Keys6(s) - seen
    decreases |s|
  {
    if s != [] {
      var init, last := s[..|s| - 1], s[|s| - 1];
      assert s == init + [last];
      KeepFirstKeys(init, seen);
      Keys6Append(init, [last]);
      var tail := if KeyOf6(last) in seen + Keys6(init) then [] else [last];
      Keys6Append(KeepFirst(init, seen), tail);
    }
  }

  /** The keys of a deduplicated frame are pairwise distinct and none of them was taken. */
  lemma {:induction false} KeepFirstUnique(s: seq<Listing>, seen: set<Key6>)
    ensures UniqueKeys(KeepFirst(s, seen))
    ensures Keys6(KeepFirst(s, seen)) !! seen
    decreases |s|
  {
    KeepFirstKeys(s, seen);
    if s != [] {
      var init, last := s[..|s| - 1], s[|s| - 1];
      var r0 := KeepFirst(init, seen);
      KeepFirstUnique(init, seen);
      KeepFirstKeys(init, seen);
      if KeyOf6(last) !in seen + Keys6(init) {
        var r := r0 + [last];
        forall i, j | 0 <= i < j < |r| ensures KeyOf6(r[i]) != KeyOf6(r[j]) {
          if j == |r0| {
            assert r[i] == r0[i] && KeyOf6(r0[i]) in Keys6(r0);
          } else {
            assert r[i] == r0[i] && r[j] == r0[j];
          }
        }
      }
    }
  }

  /** The position where a record's key first occurs in `s` and is not taken. */
  ghost predicate FirstAt(s: seq<Listing>, seen: set<Key6>, x: Listing, i: int)
  {
    0 <= i < |s| && s[i] == x && KeyOf6(x) !in seen + Keys6(s[..i])
  }

  /**
   * A record is in the deduplicated frame exactly when it occurs in `s` at a
   * position where its key was neither taken nor carried by an earlier record.
   */
  lemma KeepFirstMember(s: seq<Listing>, seen: set<Key6>, x: Listing)
    ensures x in KeepFirst(s, seen) <==> exists i :: FirstAt(s, seen, x, i)
  {
    if x in KeepFirst(s, seen) {
      KeptIsFirst(s, seen, x);
    }
    if exists i :: FirstAt(s, seen, x, i) {
      var i :| FirstAt(s, seen, x, i);
      FirstIsKept(s, seen, x, i);
    }
  }

  lemma {:induction false} KeptIsFirst(s: seq<Listing>, seen: set<Key6>, x: Listing)
    requires x in KeepFirst(s, seen)
    ensures exists i :: FirstAt(s, seen, x, i)
    decreases |s|
  {
    var init, last := s[..|s| - 1], s[|s| - 1];
    assert s == init + [last];
    KeepFirstUnfold(s, seen, init, last);
    if x in KeepFirst(init, seen) {
      KeptIsFirst(init, seen, x);
      var i :| FirstAt(init, seen, x, i);
      assert init[..i] == s[..i];
      assert FirstAt(s, seen, x, i);
    } else {
      assert FirstAt(s, seen, x, |s| - 1);
    }
  }

  lemma {:induction false} FirstIsKept(s: seq<Listing>, seen: set<Key6>, x: Listing, i: int)
    requires FirstAt(s, seen, x, i)
    ensures x in KeepFirst(s, seen)
    decreases |s|
  {
    var init, last := s[..|s| - 1], s[|s| - 1];
    if i < |init| {
      assert init[..i] == s[..i];
      assert FirstAt(init, seen, x, i);
      FirstIsKept(init, seen, x, i);
    } else {
      assert s[..i] == init;
    }
  }

  /** The deduplicated frame has one record per key not taken already. */
  lemma {:induction false} KeepFirstSize(s: seq<Listing>, seen: set<Key6>)
    ensures |KeepFirst(s, seen)| == |Keys6(s) - seen|
    decreases |s|
  {
    if s != [] {
      var init, last := s[..|s| - 1], s[|s| - 1];
      assert s == init + [last];
      KeepFirstUnfold(s, seen, init, last);
      KeepFirstSize(init, seen);
      NewKeysSnoc(s, seen);
    }
  }

  /** The keys a frame adds to `seen` grow by one exactly when its last key is new. */
  lemma NewKeysSnoc(s: seq<Listing>, seen: set<Key6>)
    requires s != []
    ensures var init, k := s[..|s| - 1], KeyOf6(s[|s| - 1]);
      if k in seen + Keys6(init) then Keys6(s) - seen == Keys6(init) - seen
      else Keys6(s) - seen == (Keys6(init) - seen) + {k} && k !in Keys6(init) - seen
  {
    Keys6Snoc(s);
  }

  /**
   * Deduplicating a concatenation: the first part is deduplicated on its own,
   * and the second part loses the keys the first part carries.
   */
  lemma {:induction false} KeepFirstAppend(p: seq<Listing>, q: seq<Listing>, seen: set<Key6>)
    ensures KeepFirst(p + q, seen) == KeepFirst(p, seen) + KeepFirst(q, seen + Keys6(p))
    decreases |q|
  {
    if q == [] {
      assert p + q == p;
    } else {
      var qi, ql := q[..|q| - 1], q[|q| - 1];
      assert q == qi + [ql];
      KeepFirstAppend(p, qi, seen);
      KeepFirstAppendStep(p, qi, ql, seen);
    }
  }

  /** The inductive step of `KeepFirstAppend`: one more record on the second part. */
  lemma KeepFirstAppendStep(p: seq<Listing>, qi: seq<Listing>, ql: Listing, seen: set<Key6>)
    requires KeepFirst(p + qi, seen) == KeepFirst(p, seen) + KeepFirst(qi, seen + Keys6(p))
    ensures KeepFirst(p + (qi + [ql]), seen)
         == KeepFirst(p, seen) + KeepFirst(qi + [ql], seen + Keys6(p))
  {
    var taken := seen + Keys6(p);
    var tail := if KeyOf6(ql) in taken + Keys6(qi) then [] else [ql];
    KeepFirstSnocAfter(p, qi, ql, seen);
    KeepFirstUnfold(qi + [ql], taken, qi, ql);
    ConcatAssoc(KeepFirst(p, seen), KeepFirst(qi, taken), tail);
  }

  /** Unfolding `KeepFirst` once on `p + qi + [ql]`, with the keys of `p` moved into `seen`. */
  lemma KeepFirstSnocAfter(p: seq<Listing>, qi: seq<Listing>, ql: Listing, seen: set<Key6>)
    ensures KeepFirst(p + (qi + [ql]), seen)
         == KeepFirst(p + qi, seen) + (if KeyOf6(ql) in (seen + Keys6(p)) + Keys6(qi) then [] else [ql])
  {
    assert p + (qi + [ql]) == (p + qi) + [ql];
    KeepFirstUnfold(p + (qi + [ql]), seen, p + qi, ql);
    Keys6Append(p, qi);
  }

  lemma ConcatAssoc<T>(a: seq<T>, b: seq<T>, c: seq<T>)
    ensures (a + b) + c == a + (b + c)
  {
  }

  /** One step of the definition, for a frame already split as `init + [last]`. */
  lemma KeepFirstUnfold(s: seq<Listing>, seen: set<Key6>, init: seq<Listing>, last: Listing)
    requires s == init + [last]
    ensures KeepFirst(s, seen)
         == KeepFirst(init, seen) + (if KeyOf6(last) in seen + Keys6(init) then [] else [last])
  {
    assert s[..|s| - 1] == init;
  }

  /** A frame whose keys are distinct and not taken is left as it is. */
  lemma {:induction false} KeepFirstOfUnique(s: seq<Listing>, seen: set<Key6>)
    requires UniqueKeys(s) && Keys6(s) !! seen
    ensures KeepFirst(s, seen) == s
    decreases |s|
  {
    if s != [] {
      var init, last := s[..|s| - 1], s[|s| - 1];
      assert s == init + [last];
      Keys6Append(init, [last]);
      KeepFirstOfUnique(init, seen);
      assert KeyOf6(last) !in seen;
    }
  }

  /** When every key of `s` is taken already, nothing of `s` is kept. */
  lemma KeepFirstAllSeen(s: seq<Listing>, seen: set<Key6>)
    requires Keys6(s) <= seen
    ensures KeepFirst(s, seen) == []
  {
    KeepFirstKeys(s, seen);
  }

  /** One more record of a front-to-back scan: it is kept exactly when its key is new. */
  lemma KeepFirstStep(s: seq<Listing>, i: nat)
    requires i < |s|
    ensures KeepFirst(s[..i + 1], {}) ==
      KeepFirst(s[..i], {}) + (if KeyOf6(s[i]) in Keys6(s[..i]) then [] else [s[i]])
    ensures Keys6(s[..i + 1]) == Keys6(s[..i]) + {KeyOf6(s[i])}
  {
    assert s[..i + 1][..i] == s[..i];
    Keys6Snoc(s[..i + 1]);
  }
}
