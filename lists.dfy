/** The owned cons list the compiler and the code generator are built on
    (src/list.rs), with its fold and its append laws. */
module Lists {

  datatype List<T> = Nil | Cons(head: T, tail: List<T>)

  /** The elements of a list, head first: the view the constructors are specified
      in and the laws below are proved through. */
  function Elements<T>(xs: List<T>): seq<T>
  {
    match xs
    case Nil => []
    case Cons(x, t) => [x] + Elements(t)
  }

  function Length<T>(xs: List<T>): nat
  {
    match xs
    case Nil => 0
    case Cons(_, t) => 1 + Length(t)
  }

  /** Left fold: the accumulator meets the head first. */
  function Foldl<T, A>(xs: List<T>, f: (A, T) -> A, acc: A): A
  {
    match xs
    case Nil => acc
    case Cons(x, t) => Foldl(t, f, f(acc, x))
  }

  /** A reference left fold over a sequence, peeling off the LAST element. */
  function FoldSeq<T, A>(s: seq<T>, f: (A, T) -> A, acc: A): A
  {
    if s == [] then acc else f(FoldSeq(s[..|s| - 1], f, acc), s[|s| - 1])
  }

  lemma {:induction false} FoldSeqSnoc<T, A>(s: seq<T>, x: T, f: (A, T) -> A, acc: A)
    ensures FoldSeq(s + [x], f, acc) == f(FoldSeq(s, f, acc), x)
  {
    assert (s + [x])[..|s + [x]| - 1] == s;
  }

  lemma {:induction false} FoldSeqCons<T, A>(x: T, s: seq<T>, f: (A, T) -> A, acc: A)
    ensures FoldSeq([x] + s, f, acc) == FoldSeq(s, f, f(acc, x))
    decreases |s|
  {
    if s == [] {
      assert [x] + s == [x];
      assert [x][..0] == [];
    } else {
      var init, last := s[..|s| - 1], s[|s| - 1];
      assert s == init + [last];
      assert [x] + s == ([x] + init) + [last];
      FoldSeqSnoc([x] + init, last, f, acc);
      FoldSeqCons(x, init, f, acc);
      FoldSeqSnoc(init, last, f, f(acc, x));
    }
  }

  /** Foldl combines the elements in list order, head first, starting from acc. */
  lemma {:induction false} FoldlIsFoldSeq<T, A>(xs: List<T>, f: (A, T) -> A, acc: A)
    ensures Foldl(xs, f, acc) == FoldSeq(Elements(xs), f, acc)
  {
    match xs
    case Nil =>
    case Cons(x, t) =>
      FoldlIsFoldSeq(t, f, f(acc, x));
      FoldSeqCons(x, Elements(t), f, acc);
  }

  function Singleton<T>(x: T): (r: List<T>)
    ensures Elements(r) == [x]
    ensures Length(r) == 1
  {
    Cons(x, Nil)
  }

  /** `cons` of src/list.rs (named apart from the constructor Cons). */
  function Prepend<T>(x: T, xs: List<T>): (r: List<T>)
    ensures Elements(r) == [x] + Elements(xs)
    ensures Length(r) == Length(xs) + 1
  {
    Cons(x, xs)
  }

  /** The elements of xs, in order, followed by those of ys. */
  function Append<T>(xs: List<T>, ys: List<T>): (r: List<T>)
    ensures Elements(r) == Elements(xs) + Elements(ys)
    ensures Length(r) == Length(xs) + Length(ys)
  {
    match xs
    case Nil => ys
    case Cons(x, t) => Cons(x, Append(t, ys))
  }

  /** Elements determines a list: distinct lists have distinct element sequences. */
  lemma {:induction false} ElementsInjective<T>(xs: List<T>, ys: List<T>)
    requires Elements(xs) == Elements(ys)
    ensures xs == ys
  {
    match xs
    case Nil =>
    case Cons(x, t) =>
      match ys
      case Nil =>
      case Cons(y, u) =>
        assert Elements(xs)[0] == x && Elements(ys)[0] == y;
        assert Elements(t) == Elements(xs)[1..] == Elements(ys)[1..] == Elements(u);
        ElementsInjective(t, u);
  }

  lemma AppendNilRight<T>(xs: List<T>)
    ensures Append(xs, Nil) == xs
  {
    assert Elements(Append(xs, Nil)) == Elements(xs) + [] == Elements(xs);
    ElementsInjective(Append(xs, Nil), xs);
  }

  lemma AppendAssoc<T>(xs: List<T>, ys: List<T>, zs: List<T>)
    ensures Append(Append(xs, ys), zs) == Append(xs, Append(ys, zs))
  {
    assert Elements(Append(Append(xs, ys), zs)) == Elements(xs) + Elements(ys) + Elements(zs);
    ElementsInjective(Append(Append(xs, ys), zs), Append(xs, Append(ys, zs)));
  }

  /** Folding over an appended list folds xs, then continues with ys. */
  lemma {:induction false} FoldlAppend<T, A>(xs: List<T>, ys: List<T>, f: (A, T) -> A, acc: A)
    ensures Foldl(Append(xs, ys), f, acc) == Foldl(ys, f, Foldl(xs, f, acc))
  {
    match xs
    case Nil =>
    case Cons(x, t) => FoldlAppend(t, ys, f, f(acc, x));
  }
}
