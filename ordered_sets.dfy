/**
 * Insertion-ordered sets of strings, represented as sequences without duplicates.
 * They model JavaScript's `Set`, whose iteration order is first-insertion order,
 * and the `filter` calls applied to such sets.
 */
module OrderedSets {

  predicate NoDups(s: seq<string>) {
    forall i, j :: 0 <= i < j < |s| ==> s[i] != s[j]
  }

  /** `set.add(x)`: appends `x` unless it is already a member. */
  function Insert(s: seq<string>, x: string): (r: seq<string>)
    ensures x in r
    ensures forall y :: y in r <==> y in s || y == x
    ensures NoDups(s) ==> NoDups(r)
    ensures x in s ==> r == s
  {
    if x in s then s else s + [x]
  }

  /** The members of `xs`, each once, in the order of their first occurrence. */
  function Dedup(xs: seq<string>): (r: seq<string>)
    ensures NoDups(r)
    ensures forall x :: x in r <==> x in xs
    ensures |r| <= |xs|
    decreases |xs|
  {
    if xs == [] then [] else Insert(Dedup(xs[..|xs| - 1]), xs[|xs| - 1])
  }

  lemma DedupSnoc(xs: seq<string>, x: string)
    ensures Dedup(xs + [x]) == Insert(Dedup(xs), x)
  {
    assert (xs + [x])[..|xs|] == xs;
  }

  /** `labels.forEach(l => set.add(l))`, where the set `members` holds the first occurrences of `seen`. */
  method AddAll(members: seq<string>, labels: seq<string>, ghost seen: seq<string>) returns (r: seq<string>)
    requires members == Dedup(seen)
    ensures r == Dedup(seen + labels)
  {
    r := members;
    assert seen + labels[..0] == seen;
    for j := 0 to |labels|
      invariant r == Dedup(seen + labels[..j])
    {
      AddOneMore(seen, labels, j);
      r := Insert(r, labels[j]);
    }
    assert labels[..|labels|] == labels;
  }

  lemma AddOneMore(seen: seq<string>, labels: seq<string>, j: nat)
    requires j < |labels|
    ensures Dedup(seen + labels[..j + 1]) == Insert(Dedup(seen + labels[..j]), labels[j])
  {
    assert seen + labels[..j + 1] == (seen + labels[..j]) + [labels[j]];
    DedupSnoc(seen + labels[..j], labels[j]);
  }

  /** The elements of `s` that are not in `t`, in the order of `s` (`s.filter(x => !t.has(x))`). */
  function Without(s: seq<string>, t: seq<string>): (r: seq<string>)
    ensures forall x :: x in r <==> x in s && x !in t
    ensures |r| <= |s|
    ensures NoDups(s) ==> NoDups(r)
    decreases |s|
  {
    if s == [] then []
    else
      var rest := Without(s[..|s| - 1], t);
      if s[|s| - 1] in t then rest else rest + [s[|s| - 1]]
  }

  /** The elements of `s` that are in `t`, in the order of `s` (`s.filter(x => t.includes(x))`). */
  function Within(s: seq<string>, t: seq<string>): (r: seq<string>)
    ensures forall x :: x in r <==> x in s && x in t
    ensures |r| <= |s|
    decreases |s|
  {
    if s == [] then []
    else
      var rest := Within(s[..|s| - 1], t);
      if s[|s| - 1] in t then rest + [s[|s| - 1]] else rest
  }

  lemma WithoutSnoc(s: seq<string>, x: string, t: seq<string>)
    ensures Without(s + [x], t) == Without(s, t) + (if x in t then [] else [x])
  {
    assert (s + [x])[..|s|] == s;
  }

  lemma WithinSnoc(s: seq<string>, x: string, t: seq<string>)
    ensures Within(s + [x], t) == Within(s, t) + (if x in t then [x] else [])
  {
    assert (s + [x])[..|s|] == s;
  }

  /** Removing nothing keeps the sequence as it is. */
  lemma {:induction false} WithoutNothing(s: seq<string>, t: seq<string>)
    requires forall x :: x in s ==> x !in t
    ensures Without(s, t) == s
    decreases |s|
  {
    if s != [] {
      WithoutNothing(s[..|s| - 1], t);
      assert s[..|s| - 1] + [s[|s| - 1]] == s;
    }
  }

  /** Dropping the members of `t` distributes over concatenation, so it keeps the order and repeats of `a + b`. */
  lemma {:induction false} WithoutAppend(a: seq<string>, b: seq<string>, t: seq<string>)
    ensures Without(a + b, t) == Without(a, t) + Without(b, t)
    decreases |b|
  {
    if b == [] {
      assert a + b == a;
    } else {
      var b', x := b[..|b| - 1], b[|b| - 1];
      var e := if x in t then [] else [x];
      calc {
        Without(a + b, t);
        { assert a + b == (a + b') + [x]; }
        Without((a + b') + [x], t);
        { WithoutSnoc(a + b', x, t); }
        Without(a + b', t) + e;
        { WithoutAppend(a, b', t); }
        (Without(a, t) + Without(b', t)) + e;
        Without(a, t) + (Without(b', t) + e);
        { WithoutSnoc(b', x, t); assert b == b' + [x]; }
        Without(a, t) + Without(b, t);
      }
    }
  }

  /** Keeping the members of `t` distributes over concatenation, so it keeps the order and repeats of `a + b`. */
  lemma {:induction false} WithinAppend(a: seq<string>, b: seq<string>, t: seq<string>)
    ensures Within(a + b, t) == Within(a, t) + Within(b, t)
    decreases |b|
  {
    if b == [] {
      assert a + b == a;
    } else {
      var b', x := b[..|b| - 1], b[|b| - 1];
      var e := if x in t then [x] else [];
      calc {
        Within(a + b, t);
        { assert a + b == (a + b') + [x]; }
        Within((a + b') + [x], t);
        { WithinSnoc(a + b', x, t); }
        Within(a + b', t) + e;
        { WithinAppend(a, b', t); }
        (Within(a, t) + Within(b', t)) + e;
        Within(a, t) + (Within(b', t) + e);
        { WithinSnoc(b', x, t); assert b == b' + [x]; }
        Within(a, t) + Within(b, t);
      }
    }
  }

  /**
   * The first occurrences of `a + b` are those of `a`, followed by the
   * first occurrences in `b` of the elements that `a` does not contain.
   */
  lemma {:induction false} DedupAppend(a: seq<string>, b: seq<string>)
    ensures Dedup(a + b) == Dedup(a) + Without(Dedup(b), a)
    decreases |b|
  {
    if b == [] {
      assert a + b == a;
    } else {
      var b', x := b[..|b| - 1], b[|b| - 1];
      assert b == b' + [x];
      DedupAppend(a, b');
      DedupAppendStep(a, b', x);
    }
  }

  lemma DedupAppendStep(a: seq<string>, b': seq<string>, x: string)
    requires Dedup(a + b') == Dedup(a) + Without(Dedup(b'), a)
    ensures Dedup(a + (b' + [x])) == Dedup(a) + Without(Dedup(b' + [x]), a)
  {
    assert a + (b' + [x]) == (a + b') + [x];
    DedupSnoc(a + b', x);
    DedupSnoc(b', x);
    if x in b' {
      SeenBefore(a, b', x);
    } else if x in a {
      SeenInFront(a, b', x);
    } else {
      SeenFirst(a, b', x);
    }
  }

  lemma SeenBefore(a: seq<string>, b': seq<string>, x: string)
    requires x in b'
    ensures Insert(Dedup(b'), x) == Dedup(b')
    ensures Insert(Dedup(a + b'), x) == Dedup(a + b')
  {
    assert x in Dedup(b');
    assert x in a + b';
  }

  lemma SeenInFront(a: seq<string>, b': seq<string>, x: string)
    requires x in a && x !in b'
    ensures Insert(Dedup(b'), x) == Dedup(b') + [x]
    ensures Without(Dedup(b') + [x], a) == Without(Dedup(b'), a)
    ensures Insert(Dedup(a + b'), x) == Dedup(a + b')
  {
    assert x in a + b';
    WithoutSnoc(Dedup(b'), x, a);
  }

  lemma SeenFirst(a: seq<string>, b': seq<string>, x: string)
    requires Dedup(a + b') == Dedup(a) + Without(Dedup(b'), a)
    requires x !in a && x !in b'
    ensures Insert(Dedup(b'), x) == Dedup(b') + [x]
    ensures Without(Dedup(b') + [x], a) == Without(Dedup(b'), a) + [x]
    ensures Insert(Dedup(a + b'), x) == Dedup(a) + (Without(Dedup(b'), a) + [x])
  {
    assert x !in a + b';
    WithoutSnoc(Dedup(b'), x, a);
  }

  /** The position of the first occurrence of `x` in `xs`. */
  function FirstIndex(xs: seq<string>, x: string): (r: nat)
    requires x in xs
    ensures r < |xs| && xs[r] == x
    ensures forall k :: 0 <= k < r ==> xs[k] != x
  {
    if xs[0] == x then 0 else 1 + FirstIndex(xs[1..], x)
  }

  lemma FirstIndexSnoc(xs: seq<string>, x: string, y: string)
    requires y in xs
    ensures FirstIndex(xs + [x], y) == FirstIndex(xs, y)
  {
    var i := FirstIndex(xs, y);
    var j := FirstIndex(xs + [x], y);
    assert (xs + [x])[i] == y;
    assert xs[j] == y;
  }

  /** `Dedup` lists the members in increasing order of their first occurrence. */
  lemma {:induction false} DedupFirstOccurrenceOrder(xs: seq<string>)
    ensures InFirstOccurrenceOrder(Dedup(xs), xs)
    decreases |xs|
  {
    if xs != [] {
      var p, x := xs[..|xs| - 1], xs[|xs| - 1];
      assert xs == p + [x];
      DedupFirstOccurrenceOrder(p);
      DedupSnoc(p, x);
      FirstOccurrenceOrderSnoc(Dedup(p), p, x);
    }
  }

  /** The members of `d`, all in `xs`, come in increasing order of their first occurrence in `xs`. */
  ghost predicate InFirstOccurrenceOrder(d: seq<string>, xs: seq<string>) {
    forall i, j :: 0 <= i < j < |d| ==> d[i] in xs && d[j] in xs && FirstIndex(xs, d[i]) < FirstIndex(xs, d[j])
  }

  lemma FirstOccurrenceOrderSnoc(d: seq<string>, p: seq<string>, x: string)
    requires InFirstOccurrenceOrder(d, p)
    requires forall y :: y in d <==> y in p
    ensures InFirstOccurrenceOrder(Insert(d, x), p + [x])
  {
    if x in d {
      assert Insert(d, x) == d;
      forall i, j | 0 <= i < j < |d|
        ensures d[i] in p + [x] && d[j] in p + [x] && FirstIndex(p + [x], d[i]) < FirstIndex(p + [x], d[j])
      {
        FirstIndexSnoc(p, x, d[i]);
        FirstIndexSnoc(p, x, d[j]);
      }
    } else {
      assert Insert(d, x) == d + [x];
      forall i, j | 0 <= i < j < |d + [x]|
        ensures (d + [x])[i] in p + [x] && (d + [x])[j] in p + [x]
          && FirstIndex(p + [x], (d + [x])[i]) < FirstIndex(p + [x], (d + [x])[j])
      {
        NewLastPair(d, p, x, i, j);
      }
    }
  }

  lemma NewLastPair(d: seq<string>, p: seq<string>, x: string, i: nat, j: nat)
    requires InFirstOccurrenceOrder(d, p)
    requires forall y :: y in d <==> y in p
    requires x !in d && i < j < |d| + 1
    ensures (d + [x])[i] in p + [x] && (d + [x])[j] in p + [x]
    ensures FirstIndex(p + [x], (d + [x])[i]) < FirstIndex(p + [x], (d + [x])[j])
  {
    var d' := d + [x];
    assert d'[i] == d[i];
    FirstIndexSnoc(p, x, d[i]);
    if j < |d| {
      assert d'[j] == d[j];
      FirstIndexSnoc(p, x, d[j]);
    } else {
      assert d'[j] == x;
      LastNewIndex(p, x);
    }
  }

  lemma LastNewIndex(p: seq<string>, x: string)
    requires x !in p
    ensures FirstIndex(p + [x], x) == |p|
  {
    assert forall k :: 0 <= k < |p| ==> (p + [x])[k] == p[k];
  }

  /** Filtering keeps the order of first occurrences. */
  lemma {:induction false} WithoutOrder(s: seq<string>, t: seq<string>)
    requires NoDups(s)
    ensures forall i, j :: 0 <= i < j < |Without(s, t)| ==>
              FirstIndex(s, Without(s, t)[i]) < FirstIndex(s, Without(s, t)[j])
    decreases |s|
  {
    if s != [] {
      var p, x := s[..|s| - 1], s[|s| - 1];
      assert s == p + [x];
      assert NoDups(p);
      WithoutOrder(p, t);
      WithoutSnoc(p, x, t);
      forall y | y in Without(p, t) ensures FirstIndex(s, y) == FirstIndex(p, y) && FirstIndex(s, y) < |p| {
        FirstIndexSnoc(p, x, y);
      }
      if x !in t {
        assert x !in p;
        assert FirstIndex(s, x) == |p|;
      }
    }
  }

  /** Positions in the first-occurrence list order the first occurrences in the original. */
  lemma DedupIndexOrder(xs: seq<string>, a: string, b: string)
    requires a in xs && b in xs
    requires FirstIndex(Dedup(xs), a) < FirstIndex(Dedup(xs), b)
    ensures FirstIndex(xs, a) < FirstIndex(xs, b)
  {
    DedupFirstOccurrenceOrder(xs);
    var d := Dedup(xs);
    assert d[FirstIndex(d, a)] == a && d[FirstIndex(d, b)] == b;
  }

  /** A filter that keeps nothing outside `t` is empty when every element lies in `t`. */
  lemma {:induction false} WithoutAll(s: seq<string>, t: seq<string>)
    requires forall x :: x in s ==> x in t
    ensures Without(s, t) == []
    decreases |s|
  {
    if s != [] {
      assert forall x :: x in s[..|s| - 1] ==> x in s;
      WithoutAll(s[..|s| - 1], t);
      assert s[|s| - 1] in s;
    }
  }

  /** A filter that keeps the elements in `t` is empty when no element lies in `t`. */
  lemma {:induction false} WithinNone(s: seq<string>, t: seq<string>)
    requires forall x :: x in t ==> x !in s
    ensures Within(s, t) == []
    decreases |s|
  {
    if s != [] {
      assert forall x :: x in s[..|s| - 1] ==> x in s;
      WithinNone(s[..|s| - 1], t);
      assert s[|s| - 1] in s;
    }
  }
}
