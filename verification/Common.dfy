/** Small facts about sequences and sets, and the outcome types, that the other modules share. */
module Common {

  datatype Option<+T> = None | Some(value: T)

  datatype Result<+T, +E> = Ok(value: T) | Err(error: E)

  type Byte = n: int | 0 <= n < 256

  type Bytes = seq<Byte>

  /** The name of a Debian package the repository builds. */
  datatype Package = Package(name: string)

  function Last<T>(s: seq<T>): T
    requires s != []
  {
    s[|s| - 1]
  }

  function Init<T>(s: seq<T>): seq<T>
    requires s != []
  {
    s[..|s| - 1]
  }

  predicate Distinct<T(==)>(s: seq<T>) {
    forall i, j :: 0 <= i < j < |s| ==> s[i] != s[j]
  }

  function Elements<T>(s: seq<T>): set<T> {
    set x | x in s
  }

  function Min(a: int, b: int): int {
    if a <= b then a else b
  }

  lemma SubsetSize<T>(a: set<T>, b: set<T>)
    requires a <= b
    ensures |a| <= |b|
  {
    assert b == a + (b - a);
  }

  lemma ElementsAppend<T>(a: seq<T>, b: seq<T>)
    ensures Elements(a + b) == Elements(a) + Elements(b)
  {}

  /** One more element of a list without repetitions is new. */
  lemma DistinctStep<T>(s: seq<T>, i: nat)
    requires Distinct(s) && i < |s|
    ensures s[i] !in Elements(s[..i]) && Elements(s[..i + 1]) == Elements(s[..i]) + {s[i]}
  {
    assert s[..i + 1] == s[..i] + [s[i]];
  }

  lemma {:induction false} DistinctSize<T>(s: seq<T>)
    requires Distinct(s)
    ensures |Elements(s)| == |s|
  {
    if s != [] {
      DistinctSize(Init(s));
      assert Elements(s) == Elements(Init(s)) + {Last(s)};
    }
  }

  /** `base`, then each item of `more` that is not there yet. */
  function AppendNew<T(==)>(base: seq<T>, more: seq<T>): seq<T>
    decreases |more|
  {
    if more == [] then base
    else AppendNew(if more[0] in base then base else base + [more[0]], more[1..])
  }

  lemma {:induction false} AppendNewElements<T>(base: seq<T>, more: seq<T>)
    ensures Elements(AppendNew(base, more)) == Elements(base) + Elements(more)
    ensures Distinct(base) ==> Distinct(AppendNew(base, more))
    ensures base <= AppendNew(base, more)
    decreases |more|
  {
    if more != [] {
      var base' := if more[0] in base then base else base + [more[0]];
      AppendNewElements(base', more[1..]);
      assert Elements(more) == {more[0]} + Elements(more[1..]);
    }
  }

  lemma {:induction false} AppendNothingNew<T>(base: seq<T>, more: seq<T>)
    requires Elements(more) <= Elements(base)
    ensures AppendNew(base, more) == base
    decreases |more|
  {
    if more != [] {
      assert more[0] in Elements(more);
      AppendNothingNew(base, more[1..]);
    }
  }

  /** Each of these items is neither in the list nor before itself. */
  predicate AllNew<T(==)>(base: seq<T>, more: seq<T>) {
    forall i :: 0 <= i < |more| ==> more[i] !in base && more[i] !in more[..i]
  }

  /** Every item is appended exactly when all are new. */
  lemma {:induction false} AppendAllNew<T>(base: seq<T>, more: seq<T>)
    ensures |AppendNew(base, more)| <= |base| + |more|
    ensures AppendNew(base, more) == base + more <==> AllNew(base, more)
    decreases |more|
  {
    if more == [] {
      assert base + more == base;
    } else if more[0] in base {
      AppendAllNew(base, more[1..]);
    } else {
      AppendAllNew(base + [more[0]], more[1..]);
      assert base + [more[0]] + more[1..] == base + more;
      AllNewCons(base, more);
    }
  }

  lemma AllNewCons<T>(base: seq<T>, more: seq<T>)
    requires more != []
    ensures AllNew(base, more) <==> more[0] !in base && AllNew(base + [more[0]], more[1..])
  {
    forall i | 1 <= i < |more|
      ensures more[i] !in base && more[i] !in more[..i] <==>
              more[1..][i - 1] !in base + [more[0]] && more[1..][i - 1] !in more[1..][..i - 1]
    {
      assert more[..i] == [more[0]] + more[1..][..i - 1];
    }
    assert forall j :: 0 <= j < |more| - 1 ==> more[1..][j] == more[j + 1];
  }

  lemma {:induction false} AppendNewSplit<T>(base: seq<T>, a: seq<T>, b: seq<T>)
    ensures AppendNew(base, a + b) == AppendNew(AppendNew(base, a), b)
    decreases |a|
  {
    if a == [] {
      assert a + b == b;
    } else {
      assert (a + b)[0] == a[0] && (a + b)[1..] == a[1..] + b;
      AppendNewSplit(if a[0] in base then base else base + [a[0]], a[1..], b);
    }
  }

  lemma {:induction false} AppendNewAssociative<T>(a: seq<T>, b: seq<T>, c: seq<T>)
    ensures AppendNew(AppendNew(a, b), c) == AppendNew(a, AppendNew(b, c))
    decreases |c|
  {
    if c != [] {
      var x := c[0];
      var ab := AppendNew(a, b);
      AppendNewElements(a, b);
      if x in b {
        assert x in Elements(ab);
        AppendNewAssociative(a, b, c[1..]);
      } else {
        AppendNewSplit(a, b, [x]);
        assert AppendNew(ab, [x]) == if x in ab then ab else ab + [x];
        AppendNewAssociative(a, b + [x], c[1..]);
      }
    }
  }

  /** The loop that appends only what is new. */
  method AppendItems<T(==)>(base: seq<T>, more: seq<T>) returns (merged: seq<T>)
    ensures merged == AppendNew(base, more)
  {
    merged := base;
    var i := 0;
    while i < |more|
      invariant 0 <= i <= |more| && AppendNew(merged, more[i..]) == AppendNew(base, more)
    {
      assert more[i..][1..] == more[i + 1..];
      if more[i] !in merged {
        merged := merged + [more[i]];
      }
      i := i + 1;
    }
  }

  /** Where an element first occurs. */
  function FirstAt<T(==)>(s: seq<T>, x: T): (i: nat)
    requires x in s
    ensures i < |s| && s[i] == x && x !in s[..i]
  {
    if s[0] == x then 0
    else
      var i := FirstAt(s[1..], x);
      assert s[..1 + i] == [s[0]] + s[1..][..i];
      1 + i
  }

  lemma FirstAtAppend<T>(s: seq<T>, y: T, x: T)
    requires x in s
    ensures FirstAt(s + [y], x) == FirstAt(s, x)
  {
    var i, j := FirstAt(s, x), FirstAt(s + [y], x);
    assert (s + [y])[i] == x;
    assert forall k :: 0 <= k < |s| ==> (s + [y])[k] == s[k];
  }

  /** r lists the elements of s once each, in the order in which they first occur. */
  ghost predicate IsDeduplication<T>(s: seq<T>, r: seq<T>) {
    && Distinct(r) && Elements(r) == Elements(s)
    && forall i, j :: 0 <= i < j < |r| ==> r[i] in s && r[j] in s && FirstAt(s, r[i]) < FirstAt(s, r[j])
  }

  /** Appending to nothing what is new keeps exactly the first occurrences, in order. */
  lemma {:induction false} FirstOccurrences<T>(s: seq<T>)
    ensures IsDeduplication(s, AppendNew([], s))
  {
    AppendNewElements([], s);
    var r := AppendNew([], s);
    assert forall i :: 0 <= i < |r| ==> r[i] in Elements(r);
    if s != [] {
      var t, y := Init(s), Last(s);
      FirstOccurrences(t);
      AppendNewSplit([], t, [y]);
      assert s == t + [y];
      AppendNewElements([], t);
      var q := AppendNew([], t);
      assert r == if y in q then q else q + [y];
      assert forall x :: x in q <==> x in Elements(q);
      forall i, j | 0 <= i < j < |r|
        ensures FirstAt(s, r[i]) < FirstAt(s, r[j])
      {
        FirstAtAppend(t, y, r[i]);
        if j < |q| {
          FirstAtAppend(t, y, r[j]);
        } else {
          assert FirstAt(s, y) >= |t|;
        }
      }
    }
  }
}
