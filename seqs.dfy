/** Kotlin's `filter` on lists, and `map` with a function that may throw. */
module Seqs {
  import opened Wrappers

  /** `filter(p)`: the elements that satisfy `p`, in their original order. */
  function Filter<T>(s: seq<T>, p: T -> bool): (r: seq<T>)
    ensures |r| <= |s|
    ensures forall i :: 0 <= i < |r| ==> r[i] in s && p(r[i])
    ensures forall i :: 0 <= i < |s| && p(s[i]) ==> s[i] in r
  {
    if s == [] then [] else (if p(s[0]) then [s[0]] else []) + Filter(s[1..], p)
  }

  /** Filtering works piecewise, which is what keeps the original order. */
  lemma {:induction false} FilterConcat<T>(a: seq<T>, b: seq<T>, p: T -> bool)
    ensures Filter(a + b, p) == Filter(a, p) + Filter(b, p)
  {
    if a != [] {
      assert (a + b)[1..] == a[1..] + b;
      FilterConcat(a[1..], b, p);
    } else {
      assert a + b == b;
    }
  }

  /** When every element passes, nothing is removed. */
  lemma {:induction false} FilterAll<T>(s: seq<T>, p: T -> bool)
    requires forall i :: 0 <= i < |s| ==> p(s[i])
    ensures Filter(s, p) == s
  {
    if s != [] {
      FilterAll(s[1..], p);
      assert s == [s[0]] + s[1..];
    }
  }

  /** When no element passes, nothing is left. */
  lemma {:induction false} FilterNone<T>(s: seq<T>, p: T -> bool)
    requires forall i :: 0 <= i < |s| ==> !p(s[i])
    ensures Filter(s, p) == []
  {
    if s != [] {
      FilterNone(s[1..], p);
    }
  }

  /** Filtering a single element. */
  lemma FilterOne<T>(x: T, p: T -> bool)
    ensures Filter([x], p) == if p(x) then [x] else []
  {
    assert [x][1..] == [];
  }

  /** `map(f)` where `f` may throw: the first element whose `f` fails decides the error. */
  function MapResult<A, B, E>(xs: seq<A>, f: A -> Result<B, E>): (r: Result<seq<B>, E>)
    ensures r.Ok? <==> forall i :: 0 <= i < |xs| ==> f(xs[i]).Ok?
    ensures r.Ok? ==> |r.value| == |xs| && forall i :: 0 <= i < |xs| ==> f(xs[i]) == Ok(r.value[i])
    ensures r.Err? ==> exists i :: 0 <= i < |xs| && f(xs[i]) == Err(r.error)
                                  && forall j :: 0 <= j < i ==> f(xs[j]).Ok?
  {
    if xs == [] then Ok([])
    else match f(xs[0])
      case Err(e) => Err(e)
      case Ok(y) =>
        match MapResult(xs[1..], f)
        case Err(e) =>
          ghost var i :| 0 <= i < |xs[1..]| && f(xs[1..][i]) == Err(e)
                         && forall j :: 0 <= j < i ==> f(xs[1..][j]).Ok?;
          assert f(xs[i + 1]) == Err(e);
          assert forall j :: 0 < j < i + 1 ==> f(xs[j]) == f(xs[1..][j - 1]);
          Err(e)
        case Ok(ys) =>
          assert forall i :: 0 < i < |xs| ==> f(xs[i]) == f(xs[1..][i - 1]);
          Ok([y] + ys)
  }

  /** `mapIndexed(f)` where `f` may throw; `f` sees each element's index counted from `base`. */
  function MapIndexed<A, B, E>(xs: seq<A>, f: (nat, A) -> Result<B, E>, base: nat): (r: Result<seq<B>, E>)
    ensures r.Ok? <==> forall i :: 0 <= i < |xs| ==> f(base + i, xs[i]).Ok?
    ensures r.Ok? ==> |r.value| == |xs| && forall i :: 0 <= i < |xs| ==> f(base + i, xs[i]) == Ok(r.value[i])
    ensures r.Err? ==> exists i :: 0 <= i < |xs| && f(base + i, xs[i]) == Err(r.error)
                                  && forall j :: 0 <= j < i ==> f(base + j, xs[j]).Ok?
  {
    if xs == [] then Ok([])
    else match f(base, xs[0])
      case Err(e) => Err(e)
      case Ok(y) =>
        match MapIndexed(xs[1..], f, base + 1)
        case Err(e) =>
          ghost var i :| 0 <= i < |xs[1..]| && f(base + 1 + i, xs[1..][i]) == Err(e)
                         && forall j :: 0 <= j < i ==> f(base + 1 + j, xs[1..][j]).Ok?;
          assert f(base + (i + 1), xs[i + 1]) == Err(e);
          assert forall j :: 0 < j < i + 1 ==> f(base + j, xs[j]) == f(base + 1 + (j - 1), xs[1..][j - 1]);
          Err(e)
        case Ok(ys) =>
          assert forall i :: 0 < i < |xs| ==> f(base + i, xs[i]) == f(base + 1 + (i - 1), xs[1..][i - 1]);
          Ok([y] + ys)
  }

  /** Two results that both fail, or both succeed with the same value. */
  predicate Agree<B(==), E>(r1: Result<B, E>, r2: Result<B, E>) {
    r1.Ok? == r2.Ok? && (r1.Ok? ==> r1.value == r2.value)
  }

  /** A successful `mapIndexed` from index 0 through an `f` whose every success is
      also `g`'s: each value is what `g` gives for its element. */
  lemma MapIndexedThrough<A, B, E, E2>(xs: seq<A>, f: (nat, A) -> Result<B, E>, ys: seq<B>, g: A -> Result<B, E2>)
    requires MapIndexed(xs, f, 0) == Ok(ys)
    requires forall n: nat, x: A :: f(n, x).Ok? ==> g(x) == Ok(f(n, x).value)
    ensures |ys| == |xs| && forall i :: 0 <= i < |xs| ==> g(xs[i]) == Ok(ys[i])
  {
    forall i | 0 <= i < |xs| ensures g(xs[i]) == Ok(ys[i]) {
      assert f(0 + i, xs[i]) == Ok(ys[i]);
    }
  }

  /** `withIndex().filter { keep(it.value) }` followed by a `map` that may throw:
      the elements that pass `keep`, each mapped by `f` together with its own
      position in `xs`, counted from `base`. */
  function MapKept<T, B, E>(xs: seq<T>, keep: T -> bool, f: (nat, T) -> Result<B, E>, base: nat): Result<seq<B>, E>
    decreases |xs|
  {
    if xs == [] then Ok([])
    else if !keep(xs[0]) then MapKept(xs[1..], keep, f, base + 1)
    else Prepend(f(base, xs[0]), MapKept(xs[1..], keep, f, base + 1))
  }

  /** The result of mapping one element, then the rest: the first failure wins. */
  function Prepend<B, E>(y: Result<B, E>, ys: Result<seq<B>, E>): Result<seq<B>, E> {
    match y
    case Err(e) => Err(e)
    case Ok(v) =>
      match ys
      case Err(e) => Err(e)
      case Ok(vs) => Ok([v] + vs)
  }

  /** Agreeing parts give agreeing results. */
  lemma PrependAgrees<B, E>(y1: Result<B, E>, ys1: Result<seq<B>, E>, y2: Result<B, E>, ys2: Result<seq<B>, E>)
    requires Agree(y1, y2) && Agree(ys1, ys2)
    ensures Agree(Prepend(y1, ys1), Prepend(y2, ys2))
  {
  }

  /** A failed `MapKept`: the position of the kept element that failed, every kept
      element before it having succeeded. */
  lemma {:induction false} MapKeptFirstError<T, B, E>(xs: seq<T>, keep: T -> bool, f: (nat, T) -> Result<B, E>, base: nat)
    returns (i: nat)
    requires MapKept(xs, keep, f, base).Err?
    ensures i < |xs| && keep(xs[i]) && f(base + i, xs[i]) == Err(MapKept(xs, keep, f, base).error)
    ensures forall j :: 0 <= j < i && keep(xs[j]) ==> f(base + j, xs[j]).Ok?
  {
    if keep(xs[0]) && f(base, xs[0]).Err? {
      i := 0;
    } else {
      var i' := MapKeptFirstError(xs[1..], keep, f, base + 1);
      i := i' + 1;
      assert xs[i] == xs[1..][i'];
      forall j | 0 < j < i && keep(xs[j]) ensures f(base + j, xs[j]).Ok? {
        assert xs[j] == xs[1..][j - 1];
        assert base + 1 + (j - 1) == base + j;
      }
    }
  }

  /** When `f` and `g` agree on every kept element whatever the positions they are
      given, keeping and numbering by position agrees with `mapIndexed` over the kept list. */
  lemma {:induction false} MapKeptAgrees<T, B, E>(xs: seq<T>, keep: T -> bool, f: (nat, T) -> Result<B, E>, base: nat,
                                                  g: (nat, T) -> Result<B, E>, m: nat)
    requires forall a: nat, b: nat, x: T :: keep(x) ==> Agree(f(a, x), g(b, x))
    ensures Agree(MapKept(xs, keep, f, base), MapIndexed(Filter(xs, keep), g, m))
  {
    if xs != [] {
      var x := xs[0];
      var rest := Filter(xs[1..], keep);
      if keep(x) {
        MapKeptAgrees(xs[1..], keep, f, base + 1, g, m + 1);
        assert Filter(xs, keep) == [x] + rest;
        MapIndexedCons(x, rest, g, m);
        PrependAgrees(f(base, x), MapKept(xs[1..], keep, f, base + 1), g(m, x), MapIndexed(rest, g, m + 1));
      } else {
        MapKeptAgrees(xs[1..], keep, f, base + 1, g, m);
        assert Filter(xs, keep) == rest;
      }
    }
  }

  /** One step of `mapIndexed`. */
  lemma MapIndexedCons<A, B, E>(x: A, rest: seq<A>, g: (nat, A) -> Result<B, E>, m: nat)
    ensures MapIndexed([x] + rest, g, m) == Prepend(g(m, x), MapIndexed(rest, g, m + 1))
  {
    assert ([x] + rest)[0] == x && ([x] + rest)[1..] == rest;
  }

  /** A failed `mapIndexed` from index 0: the index of the element that failed,
      every element before it having succeeded. */
  lemma MapIndexedFirstError<A, B, E>(xs: seq<A>, f: (nat, A) -> Result<B, E>) returns (i: nat)
    requires MapIndexed(xs, f, 0).Err?
    ensures i < |xs| && f(i, xs[i]) == Err(MapIndexed(xs, f, 0).error)
    ensures forall j :: 0 <= j < i ==> f(j, xs[j]).Ok?
  {
    i :| 0 <= i < |xs| && f(0 + i, xs[i]) == Err(MapIndexed(xs, f, 0).error)
         && forall j :: 0 <= j < i ==> f(0 + j, xs[j]).Ok?;
    assert forall j :: 0 <= j < i ==> f(0 + j, xs[j]) == f(j, xs[j]);
  }

  /** A prefix one longer is the shorter prefix and the next element. */
  lemma TakeOneMore<T>(s: seq<T>, i: nat)
    requires i < |s|
    ensures s[..i + 1] == s[..i] + [s[i]]
  {
  }
}
