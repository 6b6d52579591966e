/** The string operations the replay server relies on: splitting and joining at
    a separator, decimal numerals, and the last component of a path. */
module Text {
  import opened Basics

  // ----- Split and join -----

  /** Python's s.split(c): the pieces between separators, at least one. */
  function Split(s: string, c: char): (parts: seq<string>)
    ensures |parts| >= 1
    ensures forall k :: 0 <= k < |parts| ==> c !in parts[k]
  {
    if s == "" then [""]
    else
      var rest := Split(s[1..], c);
      if s[0] == c then [""] + rest else [[s[0]] + rest[0]] + rest[1..]
  }

  /** Python's c.join(parts). */
  function Join(parts: seq<string>, c: char): string {
    if parts == [] then ""
    else if |parts| == 1 then parts[0]
    else parts[0] + [c] + Join(parts[1..], c)
  }

  /** A piece free of the separator stays in front when the text is split. */
  lemma {:induction false} SplitFirst(p: string, rest: string, c: char)
    requires c !in p
    ensures Split(p + [c] + rest, c) == [p] + Split(rest, c)
  {
    var s := p + [c] + rest;
    if p == "" {
      assert s[1..] == rest;
    } else {
      assert s[1..] == p[1..] + [c] + rest;
      assert s[0] == p[0] && p[0] in p;
      assert forall x :: x in p[1..] ==> x in p;
      SplitFirst(p[1..], rest, c);
      assert [p[0]] + p[1..] == p;
      assert ([p[1..]] + Split(rest, c))[1..] == Split(rest, c);
    }
  }

  lemma {:induction false} SplitWhole(p: string, c: char)
    requires c !in p
    ensures Split(p, c) == [p]
  {
    if p != "" {
      assert p[0] in p;
      assert forall x :: x in p[1..] ==> x in p;
      SplitWhole(p[1..], c);
      assert [p[0]] + p[1..] == p;
    }
  }

  lemma {:induction false} SplitJoin(parts: seq<string>, c: char)
    requires parts != [] && forall k :: 0 <= k < |parts| ==> c !in parts[k]
    ensures Split(Join(parts, c), c) == parts
  {
    if |parts| == 1 {
      SplitWhole(parts[0], c);
    } else {
      SplitJoin(parts[1..], c);
      SplitFirst(parts[0], Join(parts[1..], c), c);
      assert [parts[0]] + parts[1..] == parts;
    }
  }

  lemma {:induction false} JoinSplit(s: string, c: char)
    ensures Join(Split(s, c), c) == s
  {
    if s != "" {
      var rest := Split(s[1..], c);
      JoinSplit(s[1..], c);
      assert s == [s[0]] + s[1..];
      if s[0] == c {
        assert ([""] + rest)[1..] == rest;
      } else {
        var parts := [[s[0]] + rest[0]] + rest[1..];
        assert parts[1..] == rest[1..];
        if |rest| == 1 {
          assert Join(parts, c) == [s[0]] + rest[0];
        } else {
          assert Join(parts, c) == ([s[0]] + rest[0]) + [c] + Join(rest[1..], c);
        }
      }
    }
  }

  /** What follows a separator does not change the first piece ... */
  lemma {:induction false} FirstPieceKept(p: string, rest: string, c: char)
    ensures Split(p + [c] + rest, c)[0] == Split(p, c)[0]
  {
    var s := p + [c] + rest;
    if p != "" {
      assert s[1..] == p[1..] + [c] + rest && s[0] == p[0];
      FirstPieceKept(p[1..], rest, c);
    }
  }

  /** ... nor the second one, if there is one before it. */
  lemma {:induction false} SecondPieceKept(p: string, rest: string, c: char)
    requires c in p
    ensures |Split(p, c)| >= 2 && |Split(p + [c] + rest, c)| >= 2
    ensures Split(p + [c] + rest, c)[1] == Split(p, c)[1]
  {
    var s := p + [c] + rest;
    assert s[1..] == p[1..] + [c] + rest && s[0] == p[0];
    if p[0] == c {
      FirstPieceKept(p[1..], rest, c);
    } else {
      SecondPieceKept(p[1..], rest, c);
    }
  }

  // ----- Decimal numerals -----

  predicate IsDigit(c: char) { '0' <= c <= '9' }

  function Digit(d: nat): char
    requires d < 10
  {
    '0' + d as char
  }

  /** Python's str(n) of a natural number. */
  function Dec(n: nat): (s: string)
    ensures s != "" && forall k :: 0 <= k < |s| ==> IsDigit(s[k])
  {
    if n < 10 then [Digit(n)] else Dec(n / 10) + [Digit(n % 10)]
  }

  function DigitsValue(s: string): nat
    requires forall k :: 0 <= k < |s| ==> IsDigit(s[k])
  {
    if s == "" then 0 else assert IsDigit(s[|s| - 1]); 10 * DigitsValue(s[..|s| - 1]) + (s[|s| - 1] as int - '0' as int)
  }

  predicate AllDigits(s: string) {
    forall k :: 0 <= k < |s| ==> IsDigit(s[k])
  }

  lemma {:induction false} DecValue(n: nat)
    ensures DigitsValue(Dec(n)) == n
  {
    var s := Dec(n);
    if n < 10 {
      assert s[..0] == "";
    } else {
      DecValue(n / 10);
      assert s[..|s| - 1] == Dec(n / 10);
    }
  }

  lemma DecInjective(a: nat, b: nat)
    requires Dec(a) == Dec(b)
    ensures a == b
  {
    DecValue(a);
    DecValue(b);
  }

  predicate IsSpace(c: char) { c in " \t\n\r" || c as int == 11 || c as int == 12 }

  function StripLeft(s: string): string {
    if s != "" && IsSpace(s[0]) then StripLeft(s[1..]) else s
  }

  function StripRight(s: string): string {
    if s != "" && IsSpace(s[|s| - 1]) then StripRight(s[..|s| - 1]) else s
  }

  /** Python's int(s): blanks around, an optional sign, one or more digits. */
  function ParseInt(s: string): Option<int> {
    var t := StripRight(StripLeft(s));
    var signed := t != "" && (t[0] == '+' || t[0] == '-');
    var digits := if signed then t[1..] else t;
    if digits == "" || !AllDigits(digits) then None
    else
      var value: int := DigitsValue(digits);
      Some(if signed && t[0] == '-' then -value else value)
  }

  lemma DigitOnly(c: char)
    requires IsDigit(c)
    ensures !IsSpace(c) && c != '+' && c != '-'
  {
  }

  lemma NothingToStrip(s: string)
    requires s != "" && !IsSpace(s[0]) && !IsSpace(s[|s| - 1])
    ensures StripRight(StripLeft(s)) == s
  {
  }

  lemma ParseDec(n: nat)
    ensures ParseInt(Dec(n)) == Some(n)
  {
    var s := Dec(n);
    DigitOnly(s[0]);
    DigitOnly(s[|s| - 1]);
    NothingToStrip(s);
    assert AllDigits(s);
    DecValue(n);
  }

  /** Blanks and a sign are read too. */
  lemma ParseIntForms(n: nat)
    ensures ParseInt(" " + Dec(n) + "\n") == Some(n)
    ensures ParseInt("+" + Dec(n)) == Some(n)
    ensures ParseInt("-" + Dec(n)).Some? && ParseInt("-" + Dec(n)).value + n == 0
  {
    var s := Dec(n);
    DigitOnly(s[0]);
    DigitOnly(s[|s| - 1]);
    DecValue(n);
    assert AllDigits(s);
    BlanksGo(s);
    SignStays('+', s);
    SignStays('-', s);
    NothingToStrip(s);
  }

  lemma BlanksGo(s: string)
    requires s != "" && !IsSpace(s[0]) && !IsSpace(s[|s| - 1])
    ensures StripRight(StripLeft(" " + s + "\n")) == s
  {
    var all := " " + s + "\n";
    assert all[1..] == s + "\n" && (s + "\n")[0] == s[0];
    assert StripLeft(all) == s + "\n";
    assert (s + "\n")[..|s|] == s;
  }

  lemma SignStays(c: char, s: string)
    requires s != "" && !IsSpace(c) && !IsSpace(s[|s| - 1])
    ensures StripRight(StripLeft([c] + s)) == [c] + s && ([c] + s)[1..] == s
  {
    NothingToStrip([c] + s);
  }

  // ----- Hexadecimal digits -----

  predicate IsLowerHex(c: char) { '0' <= c <= '9' || 'a' <= c <= 'f' }

  function HexDigit(d: nat): (c: char)
    requires d < 16
    ensures IsLowerHex(c)
  {
    if d < 10 then '0' + d as char else 'a' + (d - 10) as char
  }

  /** The value of a digit in either case. */
  function HexValue(c: char): (v: Option<nat>)
    ensures v.Some? ==> v.value < 16
  {
    if '0' <= c <= '9' then Some(c as int - '0' as int)
    else if 'a' <= c <= 'f' then Some(c as int - 'a' as int + 10)
    else if 'A' <= c <= 'F' then Some(c as int - 'A' as int + 10)
    else None
  }

  lemma HexDigitValue(d: nat)
    requires d < 16
    ensures HexValue(HexDigit(d)) == Some(d)
  {
  }

  predicate AllHex(s: string) {
    forall k :: 0 <= k < |s| ==> HexValue(s[k]).Some?
  }

  function HexDigitsValue(s: string): nat
    requires AllHex(s)
  {
    if s == "" then 0
    else assert HexValue(s[|s| - 1]).Some?; 16 * HexDigitsValue(s[..|s| - 1]) + HexValue(s[|s| - 1]).value
  }

  function DropPrefix(s: string): string {
    if |s| >= 2 && s[0] == '0' && (s[1] == 'x' || s[1] == 'X') then s[2..] else s
  }

  function DropSuffix(s: string): string {
    if s != "" && (s[|s| - 1] == 'L' || s[|s| - 1] == 'l') then s[..|s| - 1] else s
  }

  /** The prefix 0x, one or more digits, a final L. */
  function HexMagnitude(s: string): Option<nat> {
    var digits := DropSuffix(DropPrefix(s));
    if digits == "" || !AllHex(digits) then None else Some(HexDigitsValue(digits))
  }

  function Negated(v: Option<nat>): Option<int> {
    match v
    case Some(n) => var value: int := n; Some(-value)
    case None => None
  }

  /** Python 2's long(s, 16): blanks around, a sign and blanks behind it. */
  function ParseHex(s: string): Option<int> {
    var t := StripRight(StripLeft(s));
    if t != "" && t[0] == '+' then HexMagnitude(StripLeft(t[1..]))
    else if t != "" && t[0] == '-' then Negated(HexMagnitude(StripLeft(t[1..])))
    else HexMagnitude(t)
  }

  lemma HexOnly(c: char)
    requires HexValue(c).Some?
    ensures !IsSpace(c) && c != '+' && c != '-'
    ensures c != 'x' && c != 'X' && c != 'l' && c != 'L'
  {
  }

  lemma PlainMagnitude(s: string)
    requires s != "" && AllHex(s) && (|s| >= 2 ==> s[1] != 'x' && s[1] != 'X') && s[|s| - 1] != 'l' && s[|s| - 1] != 'L'
    ensures HexMagnitude(s) == Some(HexDigitsValue(s))
  {
    assert DropPrefix(s) == s;
    assert DropSuffix(s) == s;
  }

  /** Digits alone, of either case, are read as they are. */
  lemma ParsePlainHex(s: string)
    requires s != "" && AllHex(s)
    ensures ParseHex(s) == Some(HexDigitsValue(s))
  {
    HexOnly(s[0]);
    HexOnly(s[|s| - 1]);
    if |s| >= 2 { HexOnly(s[1]); }
    NothingToStrip(s);
    PlainMagnitude(s);
  }

  /** A sign, the prefix and the final L are read too. */
  lemma ParseHexForms(s: string)
    requires s != "" && AllHex(s)
    ensures ParseHex("0x" + s) == Some(HexDigitsValue(s)) && ParseHex(s + "L") == Some(HexDigitsValue(s))
    ensures ParseHex("+" + s) == Some(HexDigitsValue(s))
    ensures ParseHex("-" + s).Some? && ParseHex("-" + s).value + HexDigitsValue(s) == 0
  {
    HexOnly(s[0]);
    HexOnly(s[|s| - 1]);
    if |s| >= 2 { HexOnly(s[1]); }
    PrefixGoes(s);
    SuffixGoes(s);
    SignRead('+', s);
    SignRead('-', s);
  }

  lemma SignRead(c: char, s: string)
    requires s != "" && AllHex(s) && (c == '+' || c == '-')
    ensures ParseHex([c] + s) == if c == '+' then HexMagnitude(s) else Negated(HexMagnitude(s))
    ensures HexMagnitude(s) == Some(HexDigitsValue(s))
  {
    HexOnly(s[0]);
    HexOnly(s[|s| - 1]);
    if |s| >= 2 { HexOnly(s[1]); }
    SignStays(c, s);
    PlainMagnitude(s);
    assert StripLeft(s) == s;
  }

  lemma PrefixGoes(s: string)
    requires s != "" && AllHex(s) && !IsSpace(s[|s| - 1]) && s[|s| - 1] != 'l' && s[|s| - 1] != 'L'
    ensures ParseHex("0x" + s) == Some(HexDigitsValue(s))
  {
    var t := "0x" + s;
    NothingToStrip(t);
    assert t[2..] == s;
    assert DropPrefix(t) == s && DropSuffix(s) == s;
  }

  lemma SuffixGoes(s: string)
    requires s != "" && AllHex(s) && !IsSpace(s[0]) && s[0] != '+' && s[0] != '-'
    requires |s| >= 2 ==> s[1] != 'x' && s[1] != 'X'
    ensures ParseHex(s + "L") == Some(HexDigitsValue(s))
  {
    var t := s + "L";
    NothingToStrip(t);
    assert t[..|s|] == s;
    assert DropPrefix(t) == t && DropSuffix(t) == s;
  }

  /** The digits a to f in capitals. */
  function Capital(c: char): char {
    if 'a' <= c <= 'f' then 'A' + (c - 'a') else c
  }

  function Capitals(s: string): (r: string)
    ensures |r| == |s| && forall k :: 0 <= k < |s| ==> r[k] == Capital(s[k])
  {
    seq(|s|, k requires 0 <= k < |s| => Capital(s[k]))
  }

  lemma CapitalValue(c: char)
    requires HexValue(c).Some?
    ensures HexValue(Capital(c)) == HexValue(c)
  {
  }

  lemma {:induction false} CapitalsValue(s: string)
    requires AllHex(s)
    ensures AllHex(Capitals(s)) && HexDigitsValue(Capitals(s)) == HexDigitsValue(s)
  {
    forall k | 0 <= k < |s| ensures HexValue(Capitals(s)[k]).Some? { CapitalValue(s[k]); }
    if s != "" {
      var n := |s| - 1;
      CapitalsValue(s[..n]);
      CapitalValue(s[n]);
      assert Capitals(s)[..n] == Capitals(s[..n]);
    }
  }

  /** Python's s.replace(pattern, ''). */
  function Remove(s: string, pattern: string): string
    requires pattern != ""
  {
    if |s| < |pattern| then s
    else if s[..|pattern|] == pattern then Remove(s[|pattern|..], pattern)
    else [s[0]] + Remove(s[1..], pattern)
  }

  lemma RemoveFront(pattern: string, rest: string)
    requires pattern != ""
    ensures Remove(pattern + rest, pattern) == Remove(rest, pattern)
  {
    assert (pattern + rest)[..|pattern|] == pattern && (pattern + rest)[|pattern|..] == rest;
  }

  /** A character that does not start the pattern there stays. */
  lemma RemoveSkips(c: char, rest: string, pattern: string)
    requires |pattern| >= 2 && rest != "" && (c != pattern[0] || rest[0] != pattern[1])
    ensures Remove([c] + rest, pattern) == [c] + Remove(rest, pattern)
  {
    var s := [c] + rest;
    assert s[1..] == rest && s[0] == c && s[1] == rest[0];
    if |s| >= |pattern| { assert s[..|pattern|][0] == c && s[..|pattern|][1] == rest[0]; }
  }

  lemma {:induction false} NothingToRemove(s: string, pattern: string)
    requires pattern != "" && pattern[0] !in s
    ensures Remove(s, pattern) == s
  {
    if |s| >= |pattern| {
      assert s[..|pattern|][0] == s[0] && s[0] in s;
      NothingToRemove(s[1..], pattern);
      assert s == [s[0]] + s[1..];
    }
  }

  lemma {:induction false} RemoveChar(p: string, c: char, rest: string)
    requires c !in p
    ensures Remove(p + [c] + rest, [c]) == p + Remove(rest, [c])
  {
    var s := p + [c] + rest;
    if p == "" {
      assert s[..1] == [c] && s[1..] == rest;
    } else {
      assert s[1..] == p[1..] + [c] + rest && s[..1] == [p[0]] && p[0] in p;
      RemoveChar(p[1..], c, rest);
      assert p == [p[0]] + p[1..];
    }
  }

  predicate IsBrace(c: char) { c == '{' || c == '}' }

  /** Python's s.strip('{}'). */
  function StripBraces(s: string): string {
    if s != "" && IsBrace(s[0]) then StripBraces(s[1..])
    else if s != "" && IsBrace(s[|s| - 1]) then StripBraces(s[..|s| - 1])
    else s
  }

  // ----- Paths -----

  /** Everything after the last '/', the whole text when there is none. */
  function Basename(p: string): (b: string)
    ensures '/' !in b
  {
    if p == "" then ""
    else if p[|p| - 1] == '/' then ""
    else Basename(p[..|p| - 1]) + [p[|p| - 1]]
  }

  /** Python's p.rfind('/'). */
  function RFindSlash(p: string): (i: int)
    ensures -1 <= i < |p|
    ensures i >= 0 ==> p[i] == '/'
    ensures forall k :: i < k < |p| ==> p[k] != '/'
  {
    if p == "" then -1
    else if p[|p| - 1] == '/' then |p| - 1
    else RFindSlash(p[..|p| - 1])
  }

  /** `part` is what stands behind the last '/' of the text, or the whole text. */
  predicate IsLastPart(part: string, text: string) {
    && '/' !in part && |part| <= |text| && text[|text| - |part|..] == part
    && (|part| == |text| || text[|text| - |part| - 1] == '/')
  }

  lemma BasenameIsLastPart(p: string)
    ensures IsLastPart(Basename(p), p)
  {
    RFindIsBasename(p);
  }

  lemma LastPartUnique(a: string, b: string, text: string)
    requires IsLastPart(a, text) && IsLastPart(b, text)
    ensures a == b
  {
    NotLonger(a, b, text);
    NotLonger(b, a, text);
  }

  lemma NotLonger(a: string, b: string, text: string)
    requires IsLastPart(a, text) && IsLastPart(b, text)
    ensures |b| <= |a|
  {
    if |b| > |a| { SlashInside(a, b, text); }
  }

  lemma SlashInside(a: string, b: string, text: string)
    requires IsLastPart(a, text) && |a| < |b| <= |text| && text[|text| - |b|..] == b
    ensures '/' in b
  {
    assert b[|b| - |a| - 1] == text[|text| - |a| - 1];
  }

  /** The loader's way of taking the executable's name gives the same name as
      the checkpoint index's os.path.basename. */
  lemma {:induction false} RFindIsBasename(p: string)
    ensures var i := RFindSlash(p); Basename(p) == if i == -1 then p else p[i + 1..]
  {
    if p != "" && p[|p| - 1] != '/' {
      var q := p[..|p| - 1];
      RFindIsBasename(q);
      assert p == q + [p[|p| - 1]];
    }
  }
}
