/**
 * The JavaScript string operations the application relies on, over
 * `seq<char>`: `String(n)` for a natural number, `padStart(2, "0")`,
 * `split` on one character, `join`, `slice(0, n)`, `replace` of a single
 * character (first occurrence or all), `trim`, and ASCII case mapping.
 */
module Strings {

  import opened Wrappers

  predicate IsDigit(c: char) { '0' <= c <= '9' }

  predicate AllDigits(s: string) { forall i :: 0 <= i < |s| ==> IsDigit(s[i]) }

  /** A character that is not a digit does not occur in a string of digits. */
  lemma DigitsWithout(s: string, c: char)
    requires AllDigits(s) && !IsDigit(c)
    ensures c !in s
  {
    forall i | 0 <= i < |s| ensures s[i] != c {
      assert IsDigit(s[i]);
    }
  }

  function DigitValue(c: char): (d: nat)
    requires IsDigit(c)
    ensures d < 10
  {
    c as int - '0' as int
  }

  function DigitChar(d: nat): (c: char)
    requires d < 10
    ensures IsDigit(c) && DigitValue(c) == d
  {
    ('0' as int + d) as char
  }

  /** `String(n)` for a natural number: its decimal digits, without leading zeros. */
  function NatToString(n: nat): (s: string)
    ensures |s| >= 1 && AllDigits(s)
    ensures s[0] == '0' ==> n == 0
    ensures n < 10 ==> |s| == 1
    ensures 10 <= n < 100 ==> |s| == 2
    ensures 100 <= n < 1000 ==> |s| == 3
    ensures 1000 <= n < 10000 ==> |s| == 4
    decreases n
  {
    if n < 10 then [DigitChar(n)] else NatToString(n / 10) + [DigitChar(n % 10)]
  }

  /** The value of a string of decimal digits (the reading a person or a database makes of it). */
  function ParseNat(s: string): nat
    requires AllDigits(s)
  {
    if s == [] then 0 else ParseNat(s[..|s| - 1]) * 10 + DigitValue(s[|s| - 1])
  }

  /** Reading back the decimal form of `n` gives `n`. */
  lemma {:induction false} ParseNatToString(n: nat)
    ensures ParseNat(NatToString(n)) == n
    decreases n
  {
    var s := NatToString(n);
    if n >= 10 {
      assert s[..|s| - 1] == NatToString(n / 10);
      ParseNatToString(n / 10);
    } else {
      assert s[..|s| - 1] == [];
    }
  }

  /** Different numbers print differently. */
  lemma NatToStringInjective(m: nat, n: nat)
    ensures NatToString(m) == NatToString(n) ==> m == n
  {
    ParseNatToString(m);
    ParseNatToString(n);
  }

  /** Leading zeros do not change the value. */
  lemma {:induction false} ParseNatLeadingZero(s: string)
    requires AllDigits(s)
    ensures AllDigits("0" + s) && ParseNat("0" + s) == ParseNat(s)
    decreases |s|
  {
    if s != [] {
      assert ("0" + s)[..|"0" + s| - 1] == "0" + s[..|s| - 1];
      ParseNatLeadingZero(s[..|s| - 1]);
    } else {
      assert ("0" + s)[..|"0" + s| - 1] == [];
    }
  }

  /** `s.padStart(2, "0")`. */
  function PadStart2(s: string): string {
    if |s| >= 2 then s else seq(2 - |s|, _ => '0') + s
  }

  /** `n.toString().padStart(2, "0")`. */
  function Pad2(n: nat): string {
    PadStart2(NatToString(n))
  }

  /**
   * For 0 <= n <= 99 the padded form is exactly two digits, starts with "0"
   * exactly when n < 10, and reads back as n.
   */
  lemma Pad2Spec(n: nat)
    requires n < 100
    ensures |Pad2(n)| == 2 && AllDigits(Pad2(n))
    ensures (Pad2(n)[0] == '0') == (n < 10)
    ensures ParseNat(Pad2(n)) == n
  {
    ParseNatToString(n);
    if n < 10 {
      assert Pad2(n) == "0" + NatToString(n);
      ParseNatLeadingZero(NatToString(n));
    }
  }

  /** Pad2 is one-to-one on 0..99. */
  lemma Pad2Injective(m: nat, n: nat)
    requires m < 100 && n < 100
    ensures Pad2(m) == Pad2(n) ==> m == n
  {
    Pad2Spec(m);
    Pad2Spec(n);
  }

  /** The number of occurrences of `c` in `s`. */
  function CountChar(s: string, c: char): (r: nat)
    ensures r <= |s|
    ensures (r == 0) == (c !in s)
  {
    if s == [] then 0 else (if s[0] == c then 1 else 0) + CountChar(s[1..], c)
  }

  lemma {:induction false} CountCharAppend(a: string, b: string, c: char)
    ensures CountChar(a + b, c) == CountChar(a, c) + CountChar(b, c)
    decreases |a|
  {
    if a != [] {
      assert (a + b)[1..] == a[1..] + b;
      CountCharAppend(a[1..], b, c);
    } else {
      assert a + b == b;
    }
  }

  /** `s.split(c)` for a one-character separator: the pieces between the occurrences of `c`. */
  function Split(s: string, c: char): (parts: seq<string>)
    ensures |parts| == CountChar(s, c) + 1
    ensures forall i :: 0 <= i < |parts| ==> c !in parts[i]
  {
    if s == [] then [""]
    else if s[0] == c then [""] + Split(s[1..], c)
    else
      var rest := Split(s[1..], c);
      [[s[0]] + rest[0]] + rest[1..]
  }

  /** `parts.join(sep)`. */
  function Join(parts: seq<string>, sep: string): string {
    if |parts| == 0 then ""
    else if |parts| == 1 then parts[0]
    else parts[0] + sep + Join(parts[1..], sep)
  }

  /** A string without the separator splits into itself alone. */
  lemma {:induction false} SplitWithout(s: string, c: char)
    requires c !in s
    ensures Split(s, c) == [s]
    decreases |s|
  {
    if s != [] {
      SplitWithout(s[1..], c);
      assert [s[0]] + s[1..] == s;
    }
  }

  /** A leading separator splits off an empty piece. */
  lemma SplitSep(t: string, c: char)
    ensures Split([c] + t, c) == [""] + Split(t, c)
  {
    assert ([c] + t)[1..] == t;
  }

  /** A leading character other than the separator joins the first piece. */
  lemma SplitCons(x: char, t: string, c: char)
    requires x != c
    ensures Split([x] + t, c) == [[x] + Split(t, c)[0]] + Split(t, c)[1..]
  {
    assert ([x] + t)[1..] == t;
  }

  lemma {:induction false} SplitFirst(p: string, c: char, t: string)
    requires c !in p
    ensures Split(p + [c] + t, c) == [p] + Split(t, c)
    decreases |p|
  {
    if p == [] {
      assert p + [c] + t == [c] + t;
      SplitSep(t, c);
    } else {
      var u := p[1..] + [c] + t;
      assert p + [c] + t == [p[0]] + u;
      SplitFirst(p[1..], c, t);
      SplitCons(p[0], u, c);
      assert [p[0]] + p[1..] == p;
    }
  }

  /** Joining a piece in front of at least one more puts the separator between them. */
  lemma JoinCons(x: string, rest: seq<string>, sep: string)
    requires |rest| >= 1
    ensures Join([x] + rest, sep) == x + sep + Join(rest, sep)
  {
    assert ([x] + rest)[1..] == rest;
  }

  /** Putting `x` in front of the first piece puts it in front of the join. */
  lemma JoinPrefixFirst(x: string, rest: seq<string>, sep: string)
    requires |rest| >= 1
    ensures Join([x + rest[0]] + rest[1..], sep) == x + Join(rest, sep)
  {
    if |rest| > 1 {
      JoinCons(x + rest[0], rest[1..], sep);
      JoinCons(rest[0], rest[1..], sep);
      assert [rest[0]] + rest[1..] == rest;
    }
  }

  /** Joining the pieces of a split with the separator gives back the string. */
  lemma {:induction false} JoinSplit(s: string, c: char)
    ensures Join(Split(s, c), [c]) == s
    decreases |s|
  {
    if s != [] {
      JoinSplit(s[1..], c);
      var rest := Split(s[1..], c);
      if s[0] == c {
        JoinCons("", rest, [c]);
      } else {
        JoinPrefixFirst([s[0]], rest, [c]);
      }
      assert s == [s[0]] + s[1..];
    }
  }

  /** Splitting a join of separator-free pieces gives back the pieces. */
  lemma {:induction false} SplitJoin(parts: seq<string>, c: char)
    requires |parts| >= 1
    requires forall i :: 0 <= i < |parts| ==> c !in parts[i]
    ensures Split(Join(parts, [c]), c) == parts
    decreases |parts|
  {
    if |parts| == 1 {
      SplitWithout(parts[0], c);
    } else {
      SplitJoin(parts[1..], c);
      assert Join(parts, [c]) == parts[0] + [c] + Join(parts[1..], [c]);
      SplitFirst(parts[0], c, Join(parts[1..], [c]));
      assert [parts[0]] + parts[1..] == parts;
    }
  }

  /** A joined string holds no character that neither the pieces nor the separator hold. */
  lemma {:induction false} JoinWithout(parts: seq<string>, sep: string, c: char)
    requires forall i :: 0 <= i < |parts| ==> c !in parts[i]
    requires c !in sep
    ensures c !in Join(parts, sep)
    decreases |parts|
  {
    if |parts| > 1 {
      JoinWithout(parts[1..], sep, c);
    }
  }

  /** The pieces with `r` put in front of every piece but the first. */
  function PrefixRest(parts: seq<string>, r: string): (q: seq<string>)
    ensures |q| == |parts|
    ensures |parts| > 0 ==> q[0] == parts[0]
    ensures forall i :: 1 <= i < |parts| ==> q[i] == r + parts[i]
  {
    if parts == [] then [] else [parts[0]] + seq(|parts| - 1, i requires 0 <= i < |parts| - 1 => r + parts[i + 1])
  }

  lemma PrefixRestTail(parts: seq<string>, r: string)
    requires |parts| >= 2
    ensures PrefixRest(parts, r)[1..] == [r + PrefixRest(parts[1..], r)[0]] + PrefixRest(parts[1..], r)[1..]
  {
    var p, q := PrefixRest(parts, r), PrefixRest(parts[1..], r);
    var want := [r + q[0]] + q[1..];
    assert |p[1..]| == |want|;
    forall i | 0 <= i < |want| ensures p[1..][i] == want[i] {
      assert p[1..][i] == p[i + 1] == r + parts[i + 1];
      if i > 0 {
        assert want[i] == q[i] == r + parts[1..][i];
      }
    }
  }

  /** Joining with a separator that starts with `c` is joining with `c` alone the pieces that carry the rest. */
  lemma {:induction false} JoinSepShift(parts: seq<string>, c: char, r: string)
    ensures Join(parts, [c] + r) == Join(PrefixRest(parts, r), [c])
    decreases |parts|
  {
    if |parts| >= 2 {
      JoinSepShift(parts[1..], c, r);
      var q := PrefixRest(parts[1..], r);
      var p := PrefixRest(parts, r);
      assert parts == [parts[0]] + parts[1..];
      JoinCons(parts[0], parts[1..], [c] + r);
      PrefixRestTail(parts, r);
      assert p == [p[0]] + p[1..];
      JoinCons(p[0], p[1..], [c]);
      JoinPrefixFirst(r, q, [c]);
    }
  }

  /** `s.slice(0, n)`. */
  function Take(s: string, n: nat): (r: string)
    ensures |r| == if n <= |s| then n else |s|
    ensures r <= s
  {
    if n <= |s| then s[..n] else s
  }

  /** The index of the first `c` in `s`, if any. */
  function IndexOf(s: string, c: char): (r: Option<nat>)
    ensures r.Some? ==> r.value < |s| && s[r.value] == c && c !in s[..r.value]
    ensures r.None? ==> c !in s
  {
    if s == [] then None
    else if s[0] == c then Some(0)
    else match IndexOf(s[1..], c)
      case None => None
      case Some(k) => Some(k + 1)
  }

  /** `s.replace(a, b)` with a one-character string `a`: only the first occurrence changes. */
  function ReplaceFirst(s: string, a: char, b: char): string {
    if s == [] then []
    else if s[0] == a then [b] + s[1..]
    else [s[0]] + ReplaceFirst(s[1..], a, b)
  }

  /** ReplaceFirst changes exactly the position IndexOf finds. */
  lemma {:induction false} ReplaceFirstSpec(s: string, a: char, b: char)
    ensures |ReplaceFirst(s, a, b)| == |s|
    ensures forall i :: 0 <= i < |s| ==>
      ReplaceFirst(s, a, b)[i] == (if IndexOf(s, a) == Some(i) then b else s[i])
    decreases |s|
  {
    if s != [] && s[0] != a {
      ReplaceFirstSpec(s[1..], a, b);
    }
  }

  /** `s.replace(/a/g, b)` for a single character `a`. */
  function ReplaceAll(s: string, a: char, b: char): (r: string)
    ensures |r| == |s|
    ensures a != b ==> a !in r
    ensures forall i :: 0 <= i < |s| ==> r[i] == (if s[i] == a then b else s[i])
  {
    seq(|s|, i requires 0 <= i < |s| => if s[i] == a then b else s[i])
  }

  /** The characters that JavaScript's `trim` strips: WhiteSpace and LineTerminator. */
  predicate IsSpace(c: char) {
    c == ' ' || c == '\t' || c == '\n' || c == '\r' || c == '\U{000B}' || c == '\U{000C}'
    || c == '\U{00A0}' || c == '\U{1680}' || ('\U{2000}' <= c <= '\U{200A}')
    || c == '\U{2028}' || c == '\U{2029}' || c == '\U{202F}' || c == '\U{205F}'
    || c == '\U{3000}' || c == '\U{FEFF}'
  }

  function TrimStart(s: string): (r: string)
    ensures |r| <= |s| && r == s[|s| - |r|..]
    ensures r == [] || !IsSpace(r[0])
    ensures forall i :: 0 <= i < |s| - |r| ==> IsSpace(s[i])
  {
    if s != [] && IsSpace(s[0]) then TrimStart(s[1..]) else s
  }

  function TrimEnd(s: string): (r: string)
    ensures |r| <= |s| && r == s[..|r|]
    ensures r == [] || !IsSpace(r[|r| - 1])
    ensures forall i :: |r| <= i < |s| ==> IsSpace(s[i])
  {
    if s != [] && IsSpace(s[|s| - 1]) then TrimEnd(s[..|s| - 1]) else s
  }

  /** `s.trim()`. */
  function Trim(s: string): string {
    TrimEnd(TrimStart(s))
  }

  /** The trim is empty exactly when every character is whitespace; otherwise it has none at either end. */
  lemma TrimSpec(s: string)
    ensures (Trim(s) == "") == (forall i :: 0 <= i < |s| ==> IsSpace(s[i]))
    ensures Trim(s) != "" ==> !IsSpace(Trim(s)[0]) && !IsSpace(Trim(s)[|Trim(s)| - 1])
  {
    var a := TrimStart(s);
    var t := TrimEnd(a);
    assert Trim(s) == t;
    if a == [] {
      assert t == [];
      assert forall i :: 0 <= i < |s| ==> IsSpace(s[i]);
    } else {
      var k := |s| - |a|;
      assert a[0] == s[k] && !IsSpace(s[k]);
      assert |t| > 0 by {
        assert !IsSpace(a[0]);
      }
      assert t[0] == a[0];
    }
  }

  /** The number of whitespace characters `trimStart` removes. */
  function LeadingBlank(s: string): nat {
    |s| - |TrimStart(s)|
  }

  /** Whitespace only. */
  predicate Blank(s: string) {
    forall i :: 0 <= i < |s| ==> IsSpace(s[i])
  }

  /**
   * The trim is the text with only whitespace cut off either side: the text is
   * its leading whitespace, then the trim, then trailing whitespace.
   */
  lemma TrimCut(s: string)
    ensures var k, t := LeadingBlank(s), Trim(s);
      && k + |t| <= |s| && s == s[..k] + t + s[k + |t|..]
      && Blank(s[..k]) && Blank(s[k + |t|..])
  {
    TrimSplit(s);
    LeadBlank(s);
    TailBlank(s);
  }

  lemma TrimSplit(s: string)
    ensures var k, t := LeadingBlank(s), Trim(s);
      k + |t| <= |s| && s == s[..k] + t + s[k + |t|..]
  {
    var a := TrimStart(s);
    assert Trim(s) == TrimEnd(a);
    CutSplit(s, a, TrimEnd(a));
  }

  /** A prefix `t` of a suffix `a` of `s` splits `s` into what precedes `a`, `t`, and the rest. */
  lemma CutSplit(s: string, a: string, t: string)
    requires |a| <= |s| && a == s[|s| - |a|..] && |t| <= |a| && t == a[..|t|]
    ensures var k := |s| - |a|;
      k + |t| <= |s| && s == s[..k] + t + s[k + |t|..]
  {
    var k := |s| - |a|;
    assert t == s[k..k + |t|];
    assert s == s[..k] + s[k..k + |t|] + s[k + |t|..];
  }

  lemma LeadBlank(s: string)
    ensures LeadingBlank(s) <= |s| && Blank(s[..LeadingBlank(s)])
  {
    BlankTo(s, LeadingBlank(s));
  }

  lemma TailBlank(s: string)
    ensures LeadingBlank(s) + |Trim(s)| <= |s| && Blank(s[LeadingBlank(s) + |Trim(s)|..])
  {
    var a := TrimStart(s);
    var t := TrimEnd(a);
    assert Trim(s) == t;
    SpaceTail(s, a, |s| - |a|, |t|);
    BlankFrom(s, |s| - |a| + |t|);
  }

  lemma BlankTo(s: string, hi: nat)
    requires hi <= |s| && forall i :: 0 <= i < hi ==> IsSpace(s[i])
    ensures Blank(s[..hi])
  {
    forall j | 0 <= j < hi ensures IsSpace(s[..hi][j]) {
      assert s[..hi][j] == s[j];
    }
  }

  lemma BlankFrom(s: string, lo: nat)
    requires lo <= |s| && forall i :: lo <= i < |s| ==> IsSpace(s[i])
    ensures Blank(s[lo..])
  {
    forall j | 0 <= j < |s| - lo ensures IsSpace(s[lo..][j]) {
      assert s[lo..][j] == s[lo + j];
    }
  }

  /** Whitespace at the end of a suffix is whitespace at the end of the whole text. */
  lemma SpaceTail(s: string, a: string, k: nat, n: nat)
    requires k <= |s| && a == s[k..] && n <= |a|
    requires forall i :: n <= i < |a| ==> IsSpace(a[i])
    ensures forall i :: k + n <= i < |s| ==> IsSpace(s[i])
  {
    forall i | k + n <= i < |s| ensures IsSpace(s[i]) {
      assert s[i] == a[i - k];
    }
  }

  /** Trimming twice is trimming once. */
  lemma TrimIdempotent(s: string)
    ensures Trim(Trim(s)) == Trim(s)
  {
    var t := Trim(s);
    TrimSpec(s);
    if t != "" {
      assert TrimStart(t) == t;
      assert TrimEnd(t) == t;
    }
  }

  function LowerChar(c: char): char {
    if 'A' <= c <= 'Z' then (c as int + 32) as char else c
  }

  function UpperChar(c: char): char {
    if 'a' <= c <= 'z' then (c as int - 32) as char else c
  }

  /** `s.toLowerCase()` on ASCII letters. */
  function ToLower(s: string): (r: string)
    ensures |r| == |s|
    ensures forall i :: 0 <= i < |s| ==> r[i] == LowerChar(s[i])
  {
    seq(|s|, i requires 0 <= i < |s| => LowerChar(s[i]))
  }

  /** `s.toUpperCase()` on ASCII letters. */
  function ToUpper(s: string): (r: string)
    ensures |r| == |s|
    ensures forall i :: 0 <= i < |s| ==> r[i] == UpperChar(s[i])
  {
    seq(|s|, i requires 0 <= i < |s| => UpperChar(s[i]))
  }

  // ----- code-unit order of text, as `<` on strings and a text collation -----

  /** `a < b` on strings: the first differing character decides, and a proper prefix comes first. */
  predicate LexLess(a: string, b: string) {
    if a == [] then b != []
    else if b == [] then false
    else if a[0] != b[0] then a[0] < b[0]
    else LexLess(a[1..], b[1..])
  }

  predicate LexLe(a: string, b: string) {
    a == b || LexLess(a, b)
  }

  /** Exactly one of `a < b`, `a == b`, `b < a` holds. */
  lemma {:induction false} LexTrichotomy(a: string, b: string)
    ensures LexLess(a, b) || a == b || LexLess(b, a)
    ensures !(LexLess(a, b) && LexLess(b, a))
    decreases |a|
  {
    if a != [] && b != [] && a[0] == b[0] {
      LexTrichotomy(a[1..], b[1..]);
      if a[1..] == b[1..] {
        assert a == [a[0]] + a[1..] && b == [b[0]] + b[1..];
      }
    }
  }

  lemma {:induction false} LexTransitive(a: string, b: string, c: string)
    requires LexLess(a, b) && LexLess(b, c)
    ensures LexLess(a, c)
    decreases |a|
  {
    if a != [] && a[0] == b[0] && b[0] == c[0] {
      LexTransitive(a[1..], b[1..], c[1..]);
    }
  }

  /** Behind equally long heads, the heads decide unless they are equal. */
  lemma {:induction false} LexConcat(p: string, x: string, q: string, y: string)
    requires |p| == |q|
    ensures LexLess(p + x, q + y) <==> LexLess(p, q) || (p == q && LexLess(x, y))
    decreases |p|
  {
    if p == [] {
      assert p + x == x && q + y == y;
    } else {
      assert (p + x)[0] == p[0] && (q + y)[0] == q[0];
      assert (p + x)[1..] == p[1..] + x && (q + y)[1..] == q[1..] + y;
      LexConcat(p[1..], x, q[1..], y);
      if p[0] == q[0] && p[1..] == q[1..] {
        assert p == q;
      }
      if p == q {
        assert p[1..] == q[1..];
      }
    }
  }

  /** Two equally long texts, character by character no greater, are in order. */
  lemma {:induction false} LexPointwise(a: string, b: string)
    requires |a| == |b|
    requires forall i :: 0 <= i < |a| ==> a[i] <= b[i]
    ensures LexLe(a, b)
    decreases |a|
  {
    if a != [] && a[0] == b[0] {
      LexPointwise(a[1..], b[1..]);
      if a[1..] == b[1..] {
        assert a == [a[0]] + a[1..] && b == [b[0]] + b[1..];
      }
    }
  }
}
