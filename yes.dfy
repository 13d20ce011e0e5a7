/**
 * `yes`: the unit it repeats (its arguments joined by single spaces, ended
 * by one linefeed, or "y\n" without arguments) and the 16 KiB buffer it
 * fills with whole copies of that unit before writing it forever.
 */
module Yes {
  import opened Bytes

  /** The size of the buffer `prepare_buffer` fills. */
  const BufSize: nat := 16 * 1024

  /** The fold in `execute`: each argument followed by a space, so a fold of arguments ends in a space. */
  function SpaceFold(args: seq<seq<byte>>): (r: seq<byte>)
    ensures |r| >= |args|
    ensures args != [] ==> r[|r| - 1] == Space
  {
    if args == [] then [] else SpaceFold(args[..|args| - 1]) + args[|args| - 1] + [Space]
  }

  /** The arguments with a single space between each two of them. */
  function Join(args: seq<seq<byte>>): seq<byte>
    requires args != []
  {
    if |args| == 1 then args[0] else args[0] + [Space] + Join(args[1..])
  }

  /** The repeated unit: "y\n" without arguments; otherwise the fold, its trailing space popped, then a linefeed. */
  function Unit(args: seq<seq<byte>>): (r: seq<byte>)
    ensures r != [] && r[|r| - 1] == Newline
    ensures args == [] ==> r == Ascii("y\n")
  {
    if args == [] then Ascii("y\n")
    else
      var folded := SpaceFold(args);
      folded[..|folded| - 1] + [Newline]
  }

  /** `c` copies of `u`, one after the other. */
  function Repeat(u: seq<byte>, c: nat): (r: seq<byte>)
    ensures |r| == c * |u|
  {
    if c == 0 then [] else Repeat(u, c - 1) + u
  }

  // ---------------------------------------------------------------------
  // The unit

  /** The fold is the join with one trailing space. */
  lemma {:induction false} FoldIsJoin(args: seq<seq<byte>>)
    requires args != []
    ensures SpaceFold(args) == Join(args) + [Space]
    decreases |args|
  {
    if |args| == 1 {
      assert args[..0] == [];
    } else {
      var init := args[..|args| - 1];
      FoldIsJoin(init);
      JoinSnoc(init, args[|args| - 1]);
      assert init + [args[|args| - 1]] == args;
    }
  }

  /** Joining one more argument at the end adds a space and that argument. */
  lemma {:induction false} JoinSnoc(args: seq<seq<byte>>, a: seq<byte>)
    requires args != []
    ensures Join(args + [a]) == Join(args) + [Space] + a
    decreases |args|
  {
    if |args| == 1 {
      assert (args + [a])[1..] == [a];
    } else {
      assert (args + [a])[1..] == args[1..] + [a];
      JoinSnoc(args[1..], a);
    }
  }

  /** With arguments, the unit is the arguments joined by single spaces, then one linefeed. */
  lemma UnitIsJoinedArgs(args: seq<seq<byte>>)
    requires args != []
    ensures Unit(args) == Join(args) + [Newline]
  {
    FoldIsJoin(args);
    assert SpaceFold(args)[..|SpaceFold(args)| - 1] == Join(args);
  }

  /** Arguments without linefeeds give a unit whose only linefeed is its last byte. */
  lemma UnitHasOneNewline(args: seq<seq<byte>>)
    requires forall k, i :: 0 <= k < |args| && 0 <= i < |args[k]| ==> args[k][i] != Newline
    ensures forall i :: 0 <= i < |Unit(args)| - 1 ==> Unit(args)[i] != Newline
  {
    if args != [] {
      UnitIsJoinedArgs(args);
      JoinHasNoNewline(args);
    }
  }

  lemma {:induction false} JoinHasNoNewline(args: seq<seq<byte>>)
    requires args != []
    requires forall k, i :: 0 <= k < |args| && 0 <= i < |args[k]| ==> args[k][i] != Newline
    ensures forall i :: 0 <= i < |Join(args)| ==> Join(args)[i] != Newline
    decreases |args|
  {
    if |args| > 1 {
      JoinHasNoNewline(args[1..]);
      var j := args[0] + [Space] + Join(args[1..]);
      assert forall i :: 0 <= i < |j| ==>
        j[i] == if i < |args[0]| then args[0][i] else if i == |args[0]| then Space else Join(args[1..])[i - |args[0]| - 1];
    }
  }

  // ---------------------------------------------------------------------
  // Whole copies

  /** Copy i of a repetition is the unit itself. */
  lemma {:induction false} RepeatCopy(u: seq<byte>, c: nat, i: nat)
    requires i < c
    ensures (i + 1) * |u| <= |Repeat(u, c)| && Repeat(u, c)[i * |u|..(i + 1) * |u|] == u
    decreases c
  {
    if i < c - 1 {
      RepeatCopy(u, c - 1, i);
    }
  }

  /** The largest multiple of `n` below BufSize, as a count of copies. */
  function Copies(n: nat): nat
    requires n > 0
  {
    (BufSize - 1) / n
  }

  /** A short unit fits at least twice, and its copies fill the buffer to within one unit of its end. */
  lemma CopiesBounds(n: nat)
    requires 0 < n < BufSize / 2
    ensures Copies(n) >= 2
    ensures BufSize - n <= Copies(n) * n < BufSize
  {
    var c := Copies(n);
    assert c * n <= BufSize - 1 < c * n + n;
    assert 2 * n <= BufSize - 1;
  }

  // ---------------------------------------------------------------------
  // prepare_buffer

  /**
   * `prepare_buffer`: a unit shorter than half the buffer is copied into it
   * again and again while another copy fits without reaching the last
   * |input| positions, and the filled part is returned; a longer unit is
   * returned as it is and the buffer is not touched.
   */
  method PrepareBuffer(input: seq<byte>, buffer: array<byte>) returns (r: seq<byte>)
    requires buffer.Length == BufSize && input != []
    modifies buffer
    ensures |input| < BufSize / 2 ==>
      r == Repeat(input, Copies(|input|)) && r == buffer[..|r|] && buffer[|r|..] == old(buffer[|r|..])
    ensures |input| >= BufSize / 2 ==> r == input && buffer[..] == old(buffer[..])
  {
    var n := |input|;
    if n < BufSize / 2 {
      var size := 0;
      ghost var k := 0;
      while size < BufSize - n
        invariant size == k * n && size < BufSize
        invariant buffer[..size] == Repeat(input, k)
        invariant buffer[size..] == old(buffer[size..])
        decreases BufSize - size
      {
        CopyFromSlice(buffer, size, input);
        OneMoreCopy(buffer[..], input, k, size);
        size := size + n;
        k := k + 1;
      }
      CopiesOf(k, n, size);
      r := buffer[..size];
    } else {
      r := input;
    }
  }

  /** A tiling of `k` copies followed by the unit is a tiling of `k + 1` copies. */
  lemma OneMoreCopy(b: seq<byte>, input: seq<byte>, k: nat, size: nat)
    requires size + |input| <= |b|
    requires b[..size] == Repeat(input, k) && b[size..size + |input|] == input
    ensures b[..size + |input|] == Repeat(input, k + 1)
  {
    assert b[..size + |input|] == b[..size] + b[size..size + |input|];
  }

  lemma CopiesOf(k: nat, n: nat, size: nat)
    requires 0 < n && size == k * n && BufSize - n <= size < BufSize
    ensures k == Copies(n)
  {
    var m := BufSize - 1;
    var q := m / n;
    assert m == q * n + m % n;
    MulMono(k + 1, q, n);
    MulMono(q + 1, k, n);
    assert (k + 1) * n == k * n + n;
    assert (q + 1) * n == q * n + n;
  }

  lemma MulMono(a: int, b: int, n: nat)
    ensures a <= b ==> a * n <= b * n
  {
    if a <= b {
      assert b * n == a * n + (b - a) * n;
    }
  }

  /** `right[..input.len()].copy_from_slice(input)` with `right` starting at `at`. */
  method CopyFromSlice(buffer: array<byte>, at: nat, input: seq<byte>)
    requires at + |input| <= buffer.Length
    modifies buffer
    ensures buffer[..at] == old(buffer[..at])
    ensures buffer[at..at + |input|] == input
    ensures buffer[at + |input|..] == old(buffer[at + |input|..])
  {
    forall i | 0 <= i < |input| {
      buffer[at + i] := input[i];
    }
  }

  /** The bytes `yes` writes on each round: its unit tiled into a fresh zeroed buffer. */
  method PrepareOutput(args: seq<seq<byte>>) returns (bytes: seq<byte>)
    ensures |Unit(args)| < BufSize / 2 ==> bytes == Repeat(Unit(args), Copies(|Unit(args)|))
    ensures |Unit(args)| >= BufSize / 2 ==> bytes == Unit(args)
  {
    var buffer := new byte[BufSize](_ => 0);
    bytes := PrepareBuffer(Unit(args), buffer);
  }
}
