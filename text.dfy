/**
 * Character and string helpers shared by the rule-expression parser and the
 * built-in rules: PHP's `trim`, the PCRE classes `\s` and `[0-9]`, splitting
 * and joining on one separator character, and ASCII lower-casing.
 */
module Text {

  /** The characters PHP's `trim` strips by default: " \t\n\r\0\x0B". */
  predicate IsTrimSpace(c: char) {
    c == ' ' || c == '\t' || c == '\n' || c == '\r' || c == '\0' || c == '\U{000B}'
  }

  /** The characters PCRE's `\s` matches outside UTF mode. */
  predicate IsPcreSpace(c: char) {
    c == ' ' || c == '\t' || c == '\n' || c == '\U{000B}' || c == '\U{000C}' || c == '\r'
  }

  predicate IsDigit(c: char) {
    '0' <= c <= '9'
  }

  predicate IsLetter(c: char) {
    'a' <= c <= 'z' || 'A' <= c <= 'Z'
  }

  predicate IsLowerLetter(c: char) {
    'a' <= c <= 'z'
  }

  predicate IsAlnum(c: char) {
    IsLetter(c) || IsDigit(c)
  }

  /** The number of trim characters `s` starts with. */
  function LeadingSpaces(s: string): (n: nat)
    ensures n <= |s|
    ensures forall i :: 0 <= i < n ==> IsTrimSpace(s[i])
    ensures n == |s| || !IsTrimSpace(s[n])
  {
    if |s| > 0 && IsTrimSpace(s[0]) then 1 + LeadingSpaces(s[1..]) else 0
  }

  /** The number of trim characters `s` ends with. */
  function TrailingSpaces(s: string): (n: nat)
    ensures n <= |s|
    ensures forall i :: |s| - n <= i < |s| ==> IsTrimSpace(s[i])
    ensures n == |s| || !IsTrimSpace(s[|s| - n - 1])
  {
    if |s| > 0 && IsTrimSpace(s[|s| - 1]) then 1 + TrailingSpaces(s[..|s| - 1]) else 0
  }

  /** Strips leading trim characters: the result is the suffix of `s` after them. */
  function TrimLeft(s: string): (r: string)
    ensures |r| <= |s| && r == s[|s| - |r|..]
    ensures forall i :: 0 <= i < |s| - |r| ==> IsTrimSpace(s[i])
    ensures r == [] || !IsTrimSpace(r[0])
  {
    s[LeadingSpaces(s)..]
  }

  /** Strips trailing trim characters: the result is the prefix of `s` before them. */
  function TrimRight(s: string): (r: string)
    ensures |r| <= |s| && r == s[..|r|]
    ensures forall i :: |r| <= i < |s| ==> IsTrimSpace(s[i])
    ensures r == [] || !IsTrimSpace(r[|r| - 1])
  {
    s[..|s| - TrailingSpaces(s)]
  }

  /** PHP's `trim($s)`. */
  function Trim(s: string): string {
    TrimRight(TrimLeft(s))
  }

  /**
   * `Trim(s)` is the infix of `s` left once the trim characters at both ends
   * are gone, and it neither starts nor ends with one.
   */
  lemma TrimIsInfix(s: string) returns (i: nat, j: nat)
    ensures i <= j <= |s| && Trim(s) == s[i..j]
    ensures forall k :: 0 <= k < i ==> IsTrimSpace(s[k])
    ensures forall k :: j <= k < |s| ==> IsTrimSpace(s[k])
    ensures Trim(s) == [] || (!IsTrimSpace(Trim(s)[0]) && !IsTrimSpace(Trim(s)[|Trim(s)| - 1]))
  {
    var l := TrimLeft(s);
    var t := TrimRight(l);
    i := |s| - |l|;
    j := i + |t|;
    assert l == s[i..];
    assert t == l[..|t|];
    assert t == s[i..j];
    forall k | j <= k < |s| ensures IsTrimSpace(s[k]) {
      assert s[k] == l[k - i];
    }
    if t != [] {
      assert t[0] == l[0];
    }
  }

  /** Trimming twice is trimming once. */
  lemma TrimIdempotent(s: string)
    ensures Trim(Trim(s)) == Trim(s)
  {
    var t := Trim(s);
    var _, _ := TrimIsInfix(s);
    assert TrimLeft(t) == t;
    assert TrimRight(t) == t;
  }

  /** Drops the leading `\s` characters, as the `\s*` after a comma consumes them. */
  function DropSpaces(s: string): (r: string)
    ensures |r| <= |s| && r == s[|s| - |r|..]
    ensures forall i :: 0 <= i < |s| - |r| ==> IsPcreSpace(s[i])
    ensures r == [] || !IsPcreSpace(r[0])
  {
    if |s| > 0 && IsPcreSpace(s[0]) then DropSpaces(s[1..]) else s
  }

  /** The position of the first `c` in `s`, or `|s|` when there is none. */
  function IndexOf(s: string, c: char): (r: nat)
    ensures r <= |s|
    ensures c !in s[..r]
    ensures r < |s| ==> s[r] == c
  {
    if |s| == 0 then 0
    else if s[0] == c then 0
    else 1 + IndexOf(s[1..], c)
  }

  /** The first `c` of `p + [c] + q`, where `p` holds none, is at `|p|`. */
  lemma {:induction false} IndexOfAfterPrefix(p: string, c: char, q: string)
    requires c !in p
    ensures IndexOf(p + [c] + q, c) == |p|
  {
    if p != [] {
      assert (p + [c] + q)[1..] == p[1..] + [c] + q;
      IndexOfAfterPrefix(p[1..], c, q);
    }
  }

  /** `$s` without one final "\n": the part of a subject a PCRE `$` can end at. */
  function DropFinalNewline(s: string): (r: string)
    ensures r == s || (s == r + "\n")
    ensures |s| > 0 && s[|s| - 1] == '\n' ==> |r| == |s| - 1
  {
    if |s| > 0 && s[|s| - 1] == '\n' then s[..|s| - 1] else s
  }

  /** The pieces of `s` between the occurrences of `c`. */
  function SplitOn(s: string, c: char): (r: seq<string>)
    ensures |r| >= 1
    ensures forall k :: 0 <= k < |r| ==> c !in r[k]
    decreases |s|
  {
    var i := IndexOf(s, c);
    if i == |s| then [s] else [s[..i]] + SplitOn(s[i + 1..], c)
  }

  /** The pieces of `ps` with one `c` between each two. */
  function Join(ps: seq<string>, c: char): string
  {
    if |ps| == 0 then ""
    else if |ps| == 1 then ps[0]
    else ps[0] + [c] + Join(ps[1..], c)
  }

  /** Splitting on `c` and joining with `c` gives the string back. */
  lemma {:induction false} JoinSplitOn(s: string, c: char)
    ensures Join(SplitOn(s, c), c) == s
    decreases |s|
  {
    var i := IndexOf(s, c);
    if i < |s| {
      var rest := s[i + 1..];
      var ps := [s[..i]] + SplitOn(rest, c);
      JoinSplitOn(rest, c);
      assert SplitOn(s, c) == ps;
      assert ps[0] == s[..i] && ps[1..] == SplitOn(rest, c);
      assert Join(ps, c) == s[..i] + [c] + rest;
      assert s == s[..i] + [c] + rest;
    }
  }

  /** A piece free of `c` followed by `c` splits off as the first piece. */
  lemma SplitOnCons(p: string, c: char, q: string)
    requires c !in p
    ensures SplitOn(p + [c] + q, c) == [p] + SplitOn(q, c)
  {
    var s := p + [c] + q;
    IndexOfAfterPrefix(p, c, q);
    assert s[..|p|] == p;
    assert s[|p| + 1..] == q;
  }

  /** Joining pieces free of `c` and splitting on `c` gives the pieces back. */
  lemma {:induction false} SplitOnJoin(ps: seq<string>, c: char)
    requires |ps| >= 1
    requires forall k :: 0 <= k < |ps| ==> c !in ps[k]
    ensures SplitOn(Join(ps, c), c) == ps
  {
    if |ps| > 1 {
      var tail := ps[1..];
      SplitOnCons(ps[0], c, Join(tail, c));
      SplitOnJoin(tail, c);
      assert ps == [ps[0]] + tail;
    }
  }

  function LowerChar(c: char): char {
    if 'A' <= c <= 'Z' then (c as int + 32) as char else c
  }

  /** ASCII lower-casing, as PHP compares method names. */
  function Lower(s: string): (r: string)
    ensures |r| == |s|
    ensures forall i :: 0 <= i < |s| ==> r[i] == LowerChar(s[i])
  {
    if s == [] then [] else [LowerChar(s[0])] + Lower(s[1..])
  }
}
