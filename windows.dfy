/**
 * The four windows `head` selects from one stream, as functions of the whole
 * stream: the first N lines, all but the last N lines, the first K bytes and
 * all but the last K bytes. A line ends just after a linefeed byte; a final
 * run of bytes without a linefeed is still a line.
 */
module Windows {
  import opened Bytes

  function Min(a: nat, b: nat): nat { if a <= b then a else b }

  function Line(s: seq<byte>): (r: seq<byte>)
    ensures |r| <= |s|
    ensures |r| == 0 <==> |s| == 0
  {
    if s == [] then []
    else if s[0] == Newline then [s[0]]
    else [s[0]] + Line(s[1..])
  }

  lemma {:induction false} LineShape(s: seq<byte>)
    ensures Line(s) == s[..|Line(s)|]
    ensures forall i :: 0 <= i < |Line(s)| - 1 ==> Line(s)[i] != Newline
    ensures Line(s) == s || Line(s)[|Line(s)| - 1] == Newline
  {
    if s != [] && s[0] != Newline {
      LineShape(s[1..]);
      assert Line(s) == [s[0]] + Line(s[1..]);
    }
  }

  /** `s` cut into its lines. */
  function Lines(s: seq<byte>): (ls: seq<seq<byte>>)
    ensures Concat(ls) == s
    decreases |s|
  {
    if s == [] then [] else LineShape(s); [Line(s)] + Lines(s[|Line(s)|..])
  }

  /** Every line is non-empty, only its last byte may be a linefeed, and every line but the last ends in one. */
  lemma {:induction false} LinesShape(s: seq<byte>)
    ensures forall i :: 0 <= i < |Lines(s)| ==> Lines(s)[i] != []
    ensures forall i :: 0 <= i < |Lines(s)| - 1 ==> Lines(s)[i][|Lines(s)[i]| - 1] == Newline
    ensures forall i, j :: 0 <= i < |Lines(s)| && 0 <= j < |Lines(s)[i]| - 1 ==> Lines(s)[i][j] != Newline
    decreases |s|
  {
    if s != [] {
      var rest := s[|Line(s)|..];
      LineShape(s);
      LinesShape(rest);
      assert Lines(s) == [Line(s)] + Lines(rest);
      if rest != [] {
        assert Line(s) != s;
      }
    }
  }

  /** Reading one line off `s` leaves the remaining lines. */
  lemma LinesStep(s: seq<byte>, line: seq<byte>, rest: seq<byte>)
    requires line == Line(s) && rest == s[|line|..]
    ensures line == [] ==> s == [] && rest == [] && Lines(s) == []
    ensures line != [] ==> Lines(s) == [line] + Lines(rest)
  {
  }

  /** The first `n` lines of `s`, read one line at a time. */
  function HeadLines(s: seq<byte>, n: nat): (r: seq<byte>)
    ensures |r| <= |s|
    decreases n
  {
    if n == 0 || s == [] then []
    else Line(s) + HeadLines(s[|Line(s)|..], n - 1)
  }

  lemma HeadLinesStep(s: seq<byte>, n: nat)
    requires n > 0 && s != []
    ensures HeadLines(s, n) == Line(s) + HeadLines(s[|Line(s)|..], n - 1)
  {
  }

  /** Everything in `s` but its last `n` lines. */
  function DropLastLines(s: seq<byte>, n: nat): seq<byte>
  {
    var ls := Lines(s);
    if |ls| <= n then [] else Concat(ls[..|ls| - n])
  }

  /** The first `k` bytes of `s`. */
  function HeadBytes(s: seq<byte>, k: nat): seq<byte>
  {
    s[..Min(k, |s|)]
  }

  /** Everything in `s` but its last `k` bytes. */
  function DropLastBytes(s: seq<byte>, k: nat): seq<byte>
  {
    if |s| <= k then [] else s[..|s| - k]
  }

  /** The front part of a split is a prefix. */
  lemma PrefixOfAppend(s: seq<byte>, a: seq<byte>, b: seq<byte>)
    requires s == a + b
    ensures |a| <= |s| && a == s[..|a|]
  {
  }

  /** A line read off `s`, followed by what remains, is `s`. */
  lemma LineSplit(s: seq<byte>)
    ensures s == Line(s) + s[|Line(s)|..]
  {
    LineShape(s);
  }

  // ---------------------------------------------------------------------
  // Lines: reading a line and cutting into lines agree

  /** A line ending in a linefeed is read back whole, whatever follows it. */
  lemma {:induction false} LineOfExtension(s: seq<byte>, x: seq<byte>)
    requires s != []
    requires Line(s)[|Line(s)| - 1] == Newline || x == []
    ensures Line(Line(s) + x) == Line(s)
  {
    if s[0] == Newline {
      assert (Line(s) + x)[0] == Newline;
    } else {
      var t := s[1..];
      assert Line(s) == [s[0]] + Line(t);
      assert Line(s) + x == [s[0]] + (Line(t) + x);
      if t == [] {
        assert Line(s) + x == [s[0]];
        assert Line([s[0]]) == [s[0]] + Line([]);
      } else {
        LineOfExtension(t, x);
        assert (Line(s) + x)[1..] == Line(t) + x;
      }
    }
  }

  lemma LinesOfExtension(s: seq<byte>, x: seq<byte>)
    requires s != []
    requires Line(s)[|Line(s)| - 1] == Newline || x == []
    ensures Lines(Line(s) + x) == [Line(s)] + Lines(x)
  {
    LineOfExtension(s, x);
    assert (Line(s) + x)[|Line(s)|..] == x;
  }

  /** The first `k` lines of `s`, written out, cut back into exactly those lines. */
  lemma {:induction false} LinesOfLeadingLines(s: seq<byte>, k: nat)
    requires k <= |Lines(s)|
    ensures Lines(Concat(Lines(s)[..k])) == Lines(s)[..k]
    decreases |s|
  {
    if k > 0 {
      var rest := s[|Line(s)|..];
      var x := Concat(Lines(rest)[..k - 1]);
      LeadingLinesStep(s, k);
      LinesOfExtension(s, x);
      LinesOfLeadingLines(rest, k - 1);
    }
  }

  /** The first `k` lines are the first line, then `k - 1` lines of the rest, which are none unless the first line ends in a linefeed. */
  lemma LeadingLinesStep(s: seq<byte>, k: nat)
    requires 0 < k <= |Lines(s)|
    ensures s != []
    ensures Lines(s)[..k] == [Line(s)] + Lines(s[|Line(s)|..])[..k - 1]
    ensures Concat(Lines(s)[..k]) == Line(s) + Concat(Lines(s[|Line(s)|..])[..k - 1])
    ensures Line(s)[|Line(s)| - 1] == Newline || Concat(Lines(s[|Line(s)|..])[..k - 1]) == []
  {
    var l := Line(s);
    var rest := s[|l|..];
    assert Lines(s) == [l] + Lines(rest);
    assert Lines(s)[..k] == [l] + Lines(rest)[..k - 1];
    if l[|l| - 1] != Newline {
      LineShape(s);
      assert rest == [];
    }
  }

  // ---------------------------------------------------------------------
  // First N lines

  /** Reading `n` lines one at a time yields the first min(n, #lines) lines of `s`. */
  lemma {:induction false} HeadLinesAreLeadingLines(s: seq<byte>, n: nat)
    ensures HeadLines(s, n) == Concat(Lines(s)[..Min(n, |Lines(s)|)])
    decreases n
  {
    if n != 0 && s != [] {
      var l := Line(s);
      var rest := s[|l|..];
      HeadLinesAreLeadingLines(rest, n - 1);
      var tail := Lines(rest)[..Min(n - 1, |Lines(rest)|)];
      assert Lines(s) == [l] + Lines(rest);
      assert Lines(s)[..Min(n, |Lines(s)|)] == [l] + tail;
      assert ([l] + tail)[1..] == tail;
      assert Concat([l] + tail) == l + Concat(tail);
    }
  }

  /** The first-lines window: a prefix of the input made of exactly its first min(n, #lines) lines; nothing for n = 0. */
  lemma HeadLinesWindow(s: seq<byte>, n: nat)
    ensures |HeadLines(s, n)| <= |s| && HeadLines(s, n) == s[..|HeadLines(s, n)|]
    ensures Lines(HeadLines(s, n)) == Lines(s)[..Min(n, |Lines(s)|)]
    ensures n == 0 ==> HeadLines(s, n) == []
    ensures n >= |Lines(s)| ==> HeadLines(s, n) == s
  {
    HeadLinesAreLeadingLines(s, n);
    ConcatSplit(Lines(s), Min(n, |Lines(s)|));
    LinesOfLeadingLines(s, Min(n, |Lines(s)|));
    if n >= |Lines(s)| {
      assert Lines(s)[..Min(n, |Lines(s)|)] == Lines(s);
    }
  }

  // ---------------------------------------------------------------------
  // All but the last N lines

  /** The all-but-last-lines window: a prefix of the input made of exactly the lines before the last n. */
  lemma DropLastLinesWindow(s: seq<byte>, n: nat)
    ensures |DropLastLines(s, n)| <= |s| && DropLastLines(s, n) == s[..|DropLastLines(s, n)|]
    ensures |Lines(s)| > n ==> Lines(DropLastLines(s, n)) == Lines(s)[..|Lines(s)| - n]
    ensures |Lines(s)| <= n ==> DropLastLines(s, n) == []
    ensures n == 0 ==> DropLastLines(s, n) == s
  {
    var ls := Lines(s);
    if |ls| > n {
      var k := |ls| - n;
      var front := Concat(ls[..k]);
      assert DropLastLines(s, n) == front;
      ConcatSplit(ls, k);
      PrefixOfAppend(s, front, Concat(ls[k..]));
      LinesOfLeadingLines(s, k);
      if n == 0 {
        assert ls[..k] == ls;
      }
    }
  }

  /** Dropping the last n lines is taking the first #lines - n lines. */
  lemma DropLastLinesIsHeadLines(s: seq<byte>, n: nat)
    requires n <= |Lines(s)|
    ensures DropLastLines(s, n) == HeadLines(s, |Lines(s)| - n)
  {
    HeadLinesAreLeadingLines(s, |Lines(s)| - n);
  }

  // ---------------------------------------------------------------------
  // Bytes

  /** The first-bytes window: the input's first min(k, |s|) bytes. */
  lemma HeadBytesWindow(s: seq<byte>, k: nat)
    ensures |HeadBytes(s, k)| == Min(k, |s|) && HeadBytes(s, k) == s[..|HeadBytes(s, k)|]
    ensures k >= |s| ==> HeadBytes(s, k) == s
  {
  }

  /** The first K bytes followed by all but the last K bytes is not the input in general: "ab" with K = 1 gives "aa". */
  lemma HeadThenDropLastIsNotInput()
    ensures var s: seq<byte> := [97, 98]; HeadBytes(s, 1) + DropLastBytes(s, 1) != s
  {
    var s: seq<byte> := [97, 98];
    assert (HeadBytes(s, 1) + DropLastBytes(s, 1))[1] == 97;
  }

  /**
   * All but the last k bytes, put back in front of the last k bytes, is the
   * input; and it equals the first |s| - k bytes.
   */
  lemma DropLastBytesRoundTrip(s: seq<byte>, k: nat)
    ensures k <= |s| ==> DropLastBytes(s, k) + s[|s| - k..] == s
    ensures k <= |s| ==> DropLastBytes(s, k) == HeadBytes(s, |s| - k)
    ensures k >= |s| ==> DropLastBytes(s, k) == [] && HeadBytes(s, k) == s
  {
  }
}
