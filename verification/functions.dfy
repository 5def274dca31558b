/** Left-to-right function composition (functions.go; array.go carries an
    identical copy of Pipe, which is modelled only here). */
module Functions {
  import opened Types

  /** The loop inside the closure Pipe returns: starting from `input`, each
      function in turn replaces the running result. */
  function PipeApply<T>(fns: seq<ComposeFunc<T>>, input: T): T
    decreases |fns|
  {
    if |fns| == 0 then input else PipeApply(fns[1..], fns[0](input))
  }

  /** Pipe(fns) is the composed function: fns[0] first, the last one last. */
  function Pipe<T(!new)>(fns: seq<ComposeFunc<T>>): (r: ComposeFunc<T>)
    ensures |fns| == 0 ==> forall x :: r(x) == x
    ensures |fns| == 1 ==> forall x :: r(x) == fns[0](x)
  {
    assert |fns| == 1 ==> forall x :: PipeApply(fns, x) == fns[0](x) by {
      if |fns| == 1 {
        forall x ensures PipeApply(fns, x) == fns[0](x) {
          assert |fns[1..]| == 0;
        }
      }
    }
    x => PipeApply(fns, x)
  }

  /** Applying a composed pipeline to an input and then one more function is
      the same as piping through the extended list: the last function runs last. */
  lemma {:induction false} PipeSnoc<T(!new)>(fns: seq<ComposeFunc<T>>, g: ComposeFunc<T>, x: T)
    ensures Pipe(fns + [g])(x) == g(Pipe(fns)(x))
    decreases |fns|
  {
    if |fns| == 0 {
      assert fns + [g] == [g];
    } else {
      assert (fns + [g])[1..] == fns[1..] + [g];
      PipeSnoc(fns[1..], g, fns[0](x));
    }
  }

  /** Two functions are applied left to right: Pipe(f, g)(x) == g(f(x)). */
  lemma PipeTwo<T(!new)>(f: ComposeFunc<T>, g: ComposeFunc<T>, x: T)
    ensures Pipe([f, g])(x) == g(f(x))
  {
    assert [f, g] == [f] + [g];
    PipeSnoc([f], g, x);
  }

  /** Pipe composes over concatenation: the functions of `fs` run before
      those of `gs`. */
  lemma {:induction false} PipeConcat<T(!new)>(fs: seq<ComposeFunc<T>>, gs: seq<ComposeFunc<T>>, x: T)
    ensures Pipe(fs + gs)(x) == Pipe(gs)(Pipe(fs)(x))
    decreases |fs|
  {
    if |fs| == 0 {
      assert fs + gs == gs;
    } else {
      assert (fs + gs)[1..] == fs[1..] + gs;
      PipeConcat(fs[1..], gs, fs[0](x));
    }
  }

  /** The example of the source's tests: adding one, then doubling, maps 1 to 4. */
  lemma PipeIncThenDouble()
    ensures Pipe([(i: int) => i + 1, (i: int) => i * 2])(1) == 4
  {
    PipeTwo((i: int) => i + 1, (i: int) => i * 2, 1);
  }
}
