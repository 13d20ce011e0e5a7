/**
 * The NUMBER argument of `head -n` / `head -c`: surrounding white space is
 * trimmed, a leading '-' selects the "all but the last" direction and every
 * leading '-' is stripped, and the rest goes to the digit-and-suffix parser
 * of the utility library, which this model takes as a parameter.
 */
module NumParse {
  import opened Wrappers

  /** Characters with the Unicode White_Space property, which `str::trim` removes. */
  predicate IsWhitespace(c: char)
  {
    ('\t' <= c <= '\r') || c == ' ' || c == '\U{85}' || c == '\U{A0}' || c == '\U{1680}'
    || ('\U{2000}' <= c <= '\U{200A}') || c == '\U{2028}' || c == '\U{2029}'
    || c == '\U{202F}' || c == '\U{205F}' || c == '\U{3000}'
  }

  predicate AllWhitespace(s: string)
  {
    forall i :: 0 <= i < |s| ==> IsWhitespace(s[i])
  }

  /** How many white-space characters `s` starts with. */
  function LeadingBlanks(s: string): (k: nat)
    ensures k <= |s|
    ensures forall i :: 0 <= i < k ==> IsWhitespace(s[i])
    ensures k == |s| || !IsWhitespace(s[k])
  {
    if s == [] || !IsWhitespace(s[0]) then 0 else 1 + LeadingBlanks(s[1..])
  }

  /** How many white-space characters `s` ends with. */
  function TrailingBlanks(s: string): (k: nat)
    ensures k <= |s|
    ensures forall i :: |s| - k <= i < |s| ==> IsWhitespace(s[i])
    ensures k == |s| || !IsWhitespace(s[|s| - k - 1])
  {
    if s == [] || !IsWhitespace(s[|s| - 1]) then 0 else 1 + TrailingBlanks(s[..|s| - 1])
  }

  /** `s` without its leading white space. */
  function TrimStart(s: string): string
  {
    s[LeadingBlanks(s)..]
  }

  /** `s` without its trailing white space. */
  function TrimEnd(s: string): string
  {
    s[..|s| - TrailingBlanks(s)]
  }

  /** `str::trim`: both ends. What is left sits between blank runs and is empty only for a blank string. */
  function Trim(s: string): (r: string)
    ensures LeadingBlanks(s) + |r| <= |s| && r == s[LeadingBlanks(s)..LeadingBlanks(s) + |r|]
    ensures AllWhitespace(s[..LeadingBlanks(s)]) && AllWhitespace(s[LeadingBlanks(s) + |r|..])
    ensures r == [] <==> AllWhitespace(s)
    ensures r != [] ==> !IsWhitespace(r[0]) && !IsWhitespace(r[|r| - 1])
  {
    TrimEnd(TrimStart(s))
  }

  /** How many '-' characters `s` starts with. */
  function LeadingDashes(s: string): (k: nat)
    ensures k <= |s|
    ensures forall i :: 0 <= i < k ==> s[i] == '-'
    ensures k == |s| || s[k] != '-'
  {
    if s == [] || s[0] != '-' then 0 else 1 + LeadingDashes(s[1..])
  }

  /** `trim_left_matches('-')`: every leading '-' removed, and nothing else. */
  function StripDashes(s: string): (r: string)
    ensures |r| <= |s| && r == s[|s| - |r|..]
    ensures forall i :: 0 <= i < |s| - |r| ==> s[i] == '-'
    ensures r == [] || r[0] != '-'
  {
    s[LeadingDashes(s)..]
  }

  /**
   * `parse_num`: the magnitude and whether it counts from the front
   * (positive) or is an "all but the last" count. `suffix` is the library's
   * digit-and-multiplier parser; its failure (bad syntax or overflow) is
   * None here too.
   */
  function ParseNum(s: string, suffix: string -> Option<nat>): (r: Option<(nat, bool)>)
    ensures Trim(s) == [] ==> r == None
    ensures Trim(s) != [] ==>
      r == if suffix(StripDashes(Trim(s))).Some? then Some((suffix(StripDashes(Trim(s))).value, Trim(s)[0] != '-')) else None
  {
    var t := Trim(s);
    if t == [] then None
    else
      var positive := t[0] != '-';
      var numstr := if positive then t else StripDashes(t);
      match suffix(numstr)
      case None => None
      case Some(n) => Some((n, positive))
  }

  /** `is_valid_num`: the argument validator, with its diagnostic. */
  function IsValidNum(val: string, suffix: string -> Option<nat>): (r: Result<(), string>)
    ensures r.Success? <==> ParseNum(val, suffix).Some?
    ensures r.Failure? ==> |r.error| > |val| + 2 && r.error[..|val| + 2] == "'" + val + "'"
    ensures r.Failure? ==> r.error == "'" + val + "' is not a number or is too large"
  {
    if ParseNum(val, suffix).Some? then Success(())
    else Failure("'" + val + "' is not a number or is too large")
  }

  /** A sequence of k '-' characters. */
  function Dashes(k: nat): (r: string)
    ensures |r| == k && forall i :: 0 <= i < k ==> r[i] == '-'
  {
    if k == 0 then [] else Dashes(k - 1) + "-"
  }

  // ---------------------------------------------------------------------
  // Trimming

  /** The leading blanks end exactly at the first non-blank character. */
  lemma LeadingBlanksAt(x: string, k: nat)
    requires k <= |x| && (forall i :: 0 <= i < k ==> IsWhitespace(x[i])) && (k == |x| || !IsWhitespace(x[k]))
    ensures LeadingBlanks(x) == k
  {
  }

  /** The trailing blanks start exactly after the last non-blank character. */
  lemma TrailingBlanksAt(x: string, k: nat)
    requires k <= |x| && (forall i :: |x| - k <= i < |x| ==> IsWhitespace(x[i]))
    requires k == |x| || !IsWhitespace(x[|x| - k - 1])
    ensures TrailingBlanks(x) == k
  {
  }

  lemma TrimStartOfBlank(s: string)
    ensures TrimStart(s) == [] <==> AllWhitespace(s)
  {
  }

  lemma TrimStartPadded(w: string, s: string)
    requires AllWhitespace(w)
    ensures TrimStart(w + s) == TrimStart(s)
  {
    var x := w + s;
    var k := LeadingBlanks(s);
    assert forall i :: 0 <= i < |w| + k ==> x[i] == if i < |w| then w[i] else s[i - |w|];
    assert |w| + k < |x| ==> x[|w| + k] == s[k];
    LeadingBlanksAt(x, |w| + k);
    assert x[|w| + k..] == s[k..];
  }

  lemma TrimEndPadded(s: string, w: string)
    requires AllWhitespace(w)
    ensures TrimEnd(s + w) == TrimEnd(s)
  {
    var x := s + w;
    var k := TrailingBlanks(s);
    assert forall i :: |x| - (|w| + k) <= i < |x| ==> x[i] == if i < |s| then s[i] else w[i - |s|];
    assert |w| + k < |x| ==> x[|x| - (|w| + k) - 1] == s[|s| - k - 1];
    TrailingBlanksAt(x, |w| + k);
    assert x[..|x| - (|w| + k)] == s[..|s| - k];
  }

  /** What follows the first non-blank character does not move it. */
  lemma TrimStartAppend(s: string, w: string)
    requires TrimStart(s) != []
    ensures TrimStart(s + w) == TrimStart(s) + w
  {
    var x := s + w;
    var k := LeadingBlanks(s);
    assert forall i :: 0 <= i <= k ==> x[i] == s[i];
    LeadingBlanksAt(x, k);
    assert x[k..] == s[k..] + w;
  }

  lemma BlankAppend(s: string, w: string)
    requires AllWhitespace(s) && AllWhitespace(w)
    ensures AllWhitespace(s + w)
  {
    assert forall i :: 0 <= i < |s + w| ==> (s + w)[i] == if i < |s| then s[i] else w[i - |s|];
  }

  /** Blank padding on either side does not change the trimmed text. */
  lemma TrimPadded(w1: string, s: string, w2: string)
    requires AllWhitespace(w1) && AllWhitespace(w2)
    ensures Trim(w1 + s + w2) == Trim(s)
  {
    assert w1 + s + w2 == w1 + (s + w2);
    TrimStartPadded(w1, s + w2);
    if TrimStart(s) == [] {
      TrimStartOfBlank(s);
      BlankAppend(s, w2);
      TrimStartOfBlank(s + w2);
    } else {
      TrimStartAppend(s, w2);
      TrimEndPadded(TrimStart(s), w2);
    }
  }

  // ---------------------------------------------------------------------
  // parse_num

  /** An empty or blank argument is not a number. */
  lemma BlankIsNone(s: string, suffix: string -> Option<nat>)
    requires AllWhitespace(s)
    ensures ParseNum(s, suffix) == None
  {
    TrimStartOfBlank(s);
  }

  /** White space around the argument does not change its value. */
  lemma PaddingIsIgnored(w1: string, s: string, w2: string, suffix: string -> Option<nat>)
    requires AllWhitespace(w1) && AllWhitespace(w2)
    ensures ParseNum(w1 + s + w2, suffix) == ParseNum(s, suffix)
  {
    TrimPadded(w1, s, w2);
  }

  /**
   * Around the suffix parser's verdict on a trimmed numeral u: u alone is the
   * positive count it denotes, and any run of one or more '-' in front of it
   * is the same magnitude counted from the end; the argument is valid
   * exactly when the suffix parser accepts u.
   */
  lemma SignIsSeparate(k: nat, u: string, suffix: string -> Option<nat>)
    requires k > 0 && u != [] && u[0] != '-' && !IsWhitespace(u[0]) && !IsWhitespace(u[|u| - 1])
    ensures ParseNum(u, suffix) == if suffix(u).Some? then Some((suffix(u).value, true)) else None
    ensures ParseNum(Dashes(k) + u, suffix) == if suffix(u).Some? then Some((suffix(u).value, false)) else None
    ensures IsValidNum(Dashes(k) + u, suffix).Success? <==> suffix(u).Some?
  {
    Untrimmed(u);
    DashesAreNegative(k, u, suffix);
  }

  /**
   * One or more '-' in front of any numeral u the trimmed argument can end
   * with, including none at all ("-", "--") and one that starts with white
   * space ("- 5"): the count is negative and its magnitude is the suffix
   * parser's verdict on u.
   */
  lemma DashesAreNegative(k: nat, u: string, suffix: string -> Option<nat>)
    requires k > 0 && (u == [] || (u[0] != '-' && !IsWhitespace(u[|u| - 1])))
    ensures ParseNum(Dashes(k) + u, suffix) == if suffix(u).Some? then Some((suffix(u).value, false)) else None
    ensures IsValidNum(Dashes(k) + u, suffix).Success? <==> suffix(u).Some?
  {
    var d := Dashes(k) + u;
    assert d[0] == '-';
    assert d[|d| - 1] == if u == [] then '-' else u[|u| - 1];
    Untrimmed(d);
    DashesStripped(k, u);
  }

  /** A string with non-blank characters at both ends is its own trim. */
  lemma Untrimmed(x: string)
    requires x != [] && !IsWhitespace(x[0]) && !IsWhitespace(x[|x| - 1])
    ensures Trim(x) == x
  {
    LeadingBlanksAt(x, 0);
    TrailingBlanksAt(x, 0);
    assert x[0..] == x;
    assert x[..|x|] == x;
  }

  lemma DashesStripped(k: nat, u: string)
    requires u == [] || u[0] != '-'
    ensures StripDashes(Dashes(k) + u) == u
  {
    var d := Dashes(k) + u;
    assert d[k..] == u;
  }
}
