/** The two printed forms of a UUID: its 16 bytes, in the order of section 4.1.2
    of RFC 4122, and the decimal text the provenance records use. */
module Uuid {
  import opened Basics
  import opened Text

  type Byte = b: int | 0 <= b < 256

  datatype Parsed<+T> = Ok(value: T) | ValueError | IndexError

  /** `normal_to_yang_uuid`, from the UUID's bytes on. */
  function NormalToYang(bytes: seq<Byte>): string {
    Join(Numerals(bytes), ' ')
  }

  function Numerals(bytes: seq<Byte>): (parts: seq<string>)
    ensures |parts| == |bytes|
    ensures forall k :: 0 <= k < |parts| ==> parts[k] == Dec(bytes[k])
  {
    seq(|bytes|, k requires 0 <= k < |bytes| => Dec(bytes[k]))
  }

  /** `chr(int(b))` for each piece; either call may raise ValueError. */
  function ParseBytes(parts: seq<string>): Parsed<seq<Byte>> {
    if parts == [] then Ok([])
    else
      match ParseInt(parts[0])
      case None => ValueError
      case Some(v) =>
        if !(0 <= v < 256) then ValueError
        else
          match ParseBytes(parts[1..])
          case Ok(rest) => Ok([v] + rest)
          case _ => ValueError
  }

  /** `yang_to_normal_uuid`: uuid.UUID insists on 16 bytes. */
  function YangToNormal(text: string): Parsed<seq<Byte>> {
    match ParseBytes(Split(text, ' '))
    case Ok(bytes) => if |bytes| == 16 then Ok(bytes) else ValueError
    case e => e
  }

  /** Every piece is the numeral that str() prints. */
  ghost predicate Canonical(text: string) {
    forall k :: 0 <= k < |Split(text, ' ')| ==> exists n: nat :: Split(text, ' ')[k] == Dec(n)
  }

  lemma NoSpaceInNumeral(n: nat)
    ensures ' ' !in Dec(n) && '-' !in Dec(n)
  {
  }

  lemma {:induction false} ParseNumerals(bytes: seq<Byte>)
    ensures ParseBytes(Numerals(bytes)) == Ok(bytes)
  {
    if bytes != [] {
      ParseDec(bytes[0]);
      ParseNumerals(bytes[1..]);
      assert Numerals(bytes)[1..] == Numerals(bytes[1..]);
      assert [bytes[0]] + bytes[1..] == bytes;
    }
  }

  /** Printing a UUID and reading it back gives the same 16 bytes. */
  lemma PrintThenParse(bytes: seq<Byte>)
    requires |bytes| == 16
    ensures YangToNormal(NormalToYang(bytes)) == Ok(bytes)
  {
    forall k | 0 <= k < 16 ensures ' ' !in Numerals(bytes)[k] {
      NoSpaceInNumeral(bytes[k]);
    }
    SplitJoin(Numerals(bytes), ' ');
    ParseNumerals(bytes);
  }

  /** The printed form is the sixteen bytes in order, each as its numeral. */
  lemma PrintedPieces(bytes: seq<Byte>)
    requires |bytes| == 16
    ensures |Split(NormalToYang(bytes), ' ')| == 16
    ensures forall k :: 0 <= k < 16 ==> Split(NormalToYang(bytes), ' ')[k] == Dec(bytes[k])
  {
    forall k | 0 <= k < 16 ensures ' ' !in Numerals(bytes)[k] {
      NoSpaceInNumeral(bytes[k]);
    }
    SplitJoin(Numerals(bytes), ' ');
  }

  lemma {:induction false} ParsedPieces(parts: seq<string>)
    requires ParseBytes(parts).Ok?
    ensures |ParseBytes(parts).value| == |parts|
    ensures forall k :: 0 <= k < |parts| ==> ParseInt(parts[k]) == Some(ParseBytes(parts).value[k])
  {
    if parts != [] { ParsedPieces(parts[1..]); }
  }

  lemma {:induction false} ParsesIff(parts: seq<string>)
    ensures ParseBytes(parts).Ok?
       <==> forall k :: 0 <= k < |parts| ==> ParseInt(parts[k]).Some? && 0 <= ParseInt(parts[k]).value < 256
  {
    if parts != [] {
      ParsesIff(parts[1..]);
      assert parts == [parts[0]] + parts[1..];
      assert forall k :: 1 <= k < |parts| ==> parts[k] == parts[1..][k - 1];
    }
  }

  /** A text is read as a UUID if and only if it is sixteen numbers below 256. */
  lemma YangToNormalIff(text: string)
    ensures YangToNormal(text).Ok?
       <==> && |Split(text, ' ')| == 16
            && forall k :: 0 <= k < 16 ==>
                 ParseInt(Split(text, ' ')[k]).Some? && 0 <= ParseInt(Split(text, ' ')[k]).value < 256
  {
    var parts := Split(text, ' ');
    ParsesIff(parts);
    if ParseBytes(parts).Ok? { ParsedPieces(parts); }
  }

  /** Reading a text and printing the UUID gives the text back exactly when each
      of its numerals is written as str() writes it. */
  lemma ParseThenPrintIff(text: string)
    requires YangToNormal(text).Ok?
    ensures NormalToYang(YangToNormal(text).value) == text <==> Canonical(text)
  {
    var parts, bytes := Split(text, ' '), YangToNormal(text).value;
    ParsedPieces(parts);
    if Canonical(text) {
      forall k | 0 <= k < |parts| ensures parts[k] == Dec(bytes[k]) {
        var n: nat :| parts[k] == Dec(n);
        ParseDec(n);
      }
      assert parts == Numerals(bytes);
      JoinSplit(text, ' ');
    }
    if NormalToYang(bytes) == text {
      forall k | 0 <= k < |bytes| ensures ' ' !in Numerals(bytes)[k] {
        NoSpaceInNumeral(bytes[k]);
      }
      SplitJoin(Numerals(bytes), ' ');
      assert forall k :: 0 <= k < |parts| ==> parts[k] == Dec(bytes[k]);
    }
  }

  // ----- The normal form -----

  /** The bytes of a number, most significant first. */
  function BigEndian(v: nat, width: nat): (bs: seq<Byte>)
    ensures |bs| == width
  {
    if width == 0 then [] else BigEndian(v / 256, width - 1) + [v % 256]
  }

  /** `uuid.UUID(text)`: decorations go, and the 32 characters left must be a number
      of 128 bits. */
  function FromText(text: string): (r: Parsed<seq<Byte>>)
    ensures r.Ok? ==> |r.value| == 16
  {
    var hex := Remove(StripBraces(Remove(Remove(text, "urn:"), "uuid:")), "-");
    if |hex| != 32 then ValueError
    else
      match ParseHex(hex)
      case Some(v) => if 0 <= v < 0x1_0000_0000_0000_0000_0000_0000_0000_0000 then Ok(BigEndian(v, 16)) else ValueError
      case None => ValueError
  }

  /** `normal_to_yang_uuid`, from the text on. */
  function NormalTextToYang(text: string): Parsed<string> {
    match FromText(text)
    case Ok(bytes) => Ok(NormalToYang(bytes))
    case _ => ValueError
  }

  function Hex(bytes: seq<Byte>): (s: string)
    ensures |s| == 2 * |bytes|
    ensures forall k :: 0 <= k < |s| ==> IsLowerHex(s[k])
  {
    if bytes == [] then "" else [HexDigit(bytes[0] / 16), HexDigit(bytes[0] % 16)] + Hex(bytes[1..])
  }

  /** What str() prints for a UUID. */
  function NormalText(bytes: seq<Byte>): string
    requires |bytes| == 16
  {
    Hex(bytes[..4]) + "-" + (Hex(bytes[4..6]) + "-" + (Hex(bytes[6..8]) + "-" + (Hex(bytes[8..10]) + "-" + Hex(bytes[10..]))))
  }

  /** The number that the bytes spell, most significant first. */
  function BytesValue(bytes: seq<Byte>): nat {
    if bytes == [] then 0 else 256 * BytesValue(bytes[..|bytes| - 1]) + bytes[|bytes| - 1]
  }

  lemma {:induction false} BigEndianInverse(bytes: seq<Byte>)
    ensures BigEndian(BytesValue(bytes), |bytes|) == bytes
  {
    if bytes != [] {
      var n := |bytes| - 1;
      BigEndianInverse(bytes[..n]);
      assert (256 * BytesValue(bytes[..n]) + bytes[n]) / 256 == BytesValue(bytes[..n]);
      assert bytes[..n] + [bytes[n]] == bytes;
    }
  }

  lemma {:induction false} BytesValueBound(bytes: seq<Byte>, k: nat)
    requires |bytes| == k
    ensures BytesValue(bytes) < Pow256(k)
  {
    if k > 0 { BytesValueBound(bytes[..k - 1], k - 1); }
  }

  function Pow256(k: nat): nat {
    if k == 0 then 1 else 256 * Pow256(k - 1)
  }

  lemma Pow256Sixteen()
    ensures Pow256(16) == 0x1_0000_0000_0000_0000_0000_0000_0000_0000
  {
    assert Pow256(4) == 0x1_0000_0000;
    assert Pow256(8) == 256 * (256 * (256 * (256 * Pow256(4))));
    assert Pow256(12) == 256 * (256 * (256 * (256 * Pow256(8))));
    assert Pow256(16) == 256 * (256 * (256 * (256 * Pow256(12))));
  }

  lemma AppendHex(s: string, c: char, d: char)
    requires AllHex(s) && HexValue(c).Some? && HexValue(d).Some?
    ensures AllHex(s + [c] + [d])
    ensures HexDigitsValue(s + [c] + [d]) == 256 * HexDigitsValue(s) + 16 * HexValue(c).value + HexValue(d).value
  {
    var t := s + [c];
    assert t[..|t| - 1] == s;
    assert (t + [d])[..|t|] == t;
  }

  /** The digits of the bytes spell the number of the bytes. */
  lemma {:induction false} HexSpells(bytes: seq<Byte>)
    ensures AllHex(Hex(bytes)) && HexDigitsValue(Hex(bytes)) == BytesValue(bytes)
  {
    if bytes != [] {
      var n := |bytes| - 1;
      var b := bytes[n];
      HexSpells(bytes[..n]);
      HexDigitValue(b / 16);
      HexDigitValue(b % 16);
      AppendHex(Hex(bytes[..n]), HexDigit(b / 16), HexDigit(b % 16));
      HexConcat(bytes[..n], [b]);
      assert bytes[..n] + [b] == bytes;
      assert Hex([b]) == [HexDigit(b / 16), HexDigit(b % 16)] + Hex([]);
      assert Hex(bytes) == Hex(bytes[..n]) + [HexDigit(b / 16)] + [HexDigit(b % 16)];
    }
  }

  lemma {:induction false} HexConcat(a: seq<Byte>, b: seq<Byte>)
    ensures Hex(a + b) == Hex(a) + Hex(b)
  {
    if a == [] {
      assert a + b == b;
    } else {
      assert (a + b)[1..] == a[1..] + b;
      HexConcat(a[1..], b);
    }
  }

  lemma DashRemoved(a: seq<Byte>, rest: string, r: seq<Byte>)
    requires Remove(rest, "-") == Hex(r)
    ensures Remove(Hex(a) + "-" + rest, "-") == Hex(a + r)
  {
    RemoveChar(Hex(a), '-', rest);
    HexConcat(a, r);
  }

  lemma FourDashesRemoved(a: seq<Byte>, b: seq<Byte>, c: seq<Byte>, d: seq<Byte>, e: seq<Byte>)
    ensures Remove(Hex(a) + "-" + (Hex(b) + "-" + (Hex(c) + "-" + (Hex(d) + "-" + Hex(e)))), "-")
         == Hex(a + (b + (c + (d + e))))
  {
    var de := Hex(d) + "-" + Hex(e);
    var cde := Hex(c) + "-" + de;
    NothingToRemove(Hex(e), "-");
    DashRemoved(d, Hex(e), e);
    DashRemoved(c, de, d + e);
    DashRemoved(b, cde, c + (d + e));
    DashRemoved(a, Hex(b) + "-" + cde, b + (c + (d + e)));
  }

  /** Taking the dashes out of what str() prints leaves the 32 digits. */
  lemma DashesRemoved(bytes: seq<Byte>)
    requires |bytes| == 16
    ensures Remove(NormalText(bytes), "-") == Hex(bytes)
  {
    var a, b, c, d, e := bytes[..4], bytes[4..6], bytes[6..8], bytes[8..10], bytes[10..];
    FourDashesRemoved(a, b, c, d, e);
    assert a + (b + (c + (d + e))) == bytes;
  }

  ghost predicate Plain(s: string) {
    forall k :: 0 <= k < |s| ==> IsLowerHex(s[k]) || s[k] == '-'
  }

  lemma PlainPieces(a: string, b: string)
    requires Plain(a) && Plain(b)
    ensures Plain(a + "-" + b)
  {
  }

  lemma PlainText(bytes: seq<Byte>)
    requires |bytes| == 16
    ensures Plain(NormalText(bytes)) && NormalText(bytes) != ""
  {
    var c, d, e := Hex(bytes[6..8]), Hex(bytes[8..10]), Hex(bytes[10..]);
    PlainPieces(d, e);
    PlainPieces(c, d + "-" + e);
    PlainPieces(Hex(bytes[4..6]), c + "-" + (d + "-" + e));
    PlainPieces(Hex(bytes[..4]), Hex(bytes[4..6]) + "-" + (c + "-" + (d + "-" + e)));
  }

  /** A plain text has no decorations. */
  lemma NothingElseRemoved(text: string)
    requires Plain(text) && text != ""
    ensures StripBraces(Remove(Remove(text, "urn:"), "uuid:")) == text
  {
    NothingToRemove(text, "urn:");
    NothingToRemove(text, "uuid:");
    assert !IsBrace(text[0]) && !IsBrace(text[|text| - 1]);
  }

  /** Reading what str() prints gives the bytes back. */
  lemma FromNormalText(bytes: seq<Byte>)
    requires |bytes| == 16
    ensures FromText(NormalText(bytes)) == Ok(bytes)
  {
    PlainText(bytes);
    NothingElseRemoved(NormalText(bytes));
    DashesRemoved(bytes);
    HexSpells(bytes);
    NumberRead(Hex(bytes), bytes);
  }

  /** The digits of the number that the bytes spell give the bytes. */
  lemma NumberRead(hex: string, bytes: seq<Byte>)
    requires |bytes| == 16 && hex != "" && AllHex(hex) && HexDigitsValue(hex) == BytesValue(bytes)
    ensures ParseHex(hex).Some? && 0 <= ParseHex(hex).value < 0x1_0000_0000_0000_0000_0000_0000_0000_0000
    ensures BigEndian(ParseHex(hex).value, 16) == bytes
  {
    ParsePlainHex(hex);
    BytesValueBound(bytes, 16);
    Pow256Sixteen();
    BigEndianInverse(bytes);
  }

  /** Without dashes and in capitals the same UUID is read. */
  lemma CapitalsRead(bytes: seq<Byte>)
    requires |bytes| == 16
    ensures FromText(Capitals(Hex(bytes))) == Ok(bytes)
  {
    var text := Capitals(Hex(bytes));
    HexSpells(bytes);
    CapitalsValue(Hex(bytes));
    forall k | 0 <= k < |text| ensures text[k] != 'u' && text[k] != '-' && !IsBrace(text[k]) {
      assert HexValue(text[k]).Some?;
    }
    NothingToRemove(text, "urn:");
    NothingToRemove(text, "uuid:");
    NothingToRemove(text, "-");
    NumberRead(text, bytes);
  }

  /** In braces, and behind urn:uuid:, the same UUID is read. */
  lemma DecorationsRead(bytes: seq<Byte>)
    requires |bytes| == 16
    ensures FromText("{" + NormalText(bytes) + "}") == Ok(bytes)
    ensures FromText("urn:uuid:" + NormalText(bytes)) == Ok(bytes)
  {
    var text := NormalText(bytes);
    PlainText(bytes);
    FromNormalText(bytes);
    NothingElseRemoved(text);
    BracesGo(text);
    UrnGoes(text);
  }

  lemma BracesGo(text: string)
    requires Plain(text) && text != ""
    ensures StripBraces(Remove(Remove("{" + text + "}", "urn:"), "uuid:")) == text
  {
    var s := "{" + text + "}";
    forall k | 0 <= k < |s| ensures s[k] != 'u' {
      if 0 < k <= |text| { assert s[k] == text[k - 1]; }
    }
    NothingToRemove(s, "urn:");
    NothingToRemove(s, "uuid:");
    assert s[1..] == text + "}" && (text + "}")[..|text|] == text;
    assert !IsBrace(text[0]) && !IsBrace(text[|text| - 1]);
    assert StripBraces(s) == StripBraces(text + "}") == StripBraces(text);
  }

  lemma UrnGoes(text: string)
    requires Plain(text) && text != ""
    ensures StripBraces(Remove(Remove("urn:uuid:" + text, "urn:"), "uuid:")) == text
  {
    assert 'u' !in text;
    assert "urn:uuid:" + text == "urn:" + ("uuid:" + text);
    RemoveFront("urn:", "uuid:" + text);
    KeepUuid(text);
    RemoveFront("uuid:", text);
    NothingToRemove(text, "uuid:");
    assert !IsBrace(text[0]) && !IsBrace(text[|text| - 1]);
  }

  /** There is no urn: to be found in what starts with uuid:. */
  lemma KeepUuid(text: string)
    requires 'u' !in text
    ensures Remove("uuid:" + text, "urn:") == "uuid:" + text
  {
    var a, b, c := "uuid:" + text, "uid:" + text, "id:" + text;
    assert a == ['u'] + b && b == ['u'] + c;
    RemoveSkips('u', b, "urn:");
    RemoveSkips('u', c, "urn:");
    assert 'u' !in c;
    NothingToRemove(c, "urn:");
  }

  /** Whatever text of a UUID is converted, in capitals, with braces or without
      dashes, the way back gives the same UUID. */
  lemma NormalRoundTrip(text: string)
    requires NormalTextToYang(text).Ok?
    ensures YangToNormal(NormalTextToYang(text).value) == FromText(text)
  {
    PrintThenParse(FromText(text).value);
  }

  /** Every UUID is converted from what str() prints for it, and back. */
  lemma YangRoundTrip(bytes: seq<Byte>)
    requires |bytes| == 16
    ensures NormalTextToYang(NormalText(bytes)) == Ok(NormalToYang(bytes))
    ensures YangToNormal(NormalTextToYang(NormalText(bytes)).value) == Ok(bytes)
  {
    FromNormalText(bytes);
    PrintThenParse(bytes);
  }

  // ----- Host prefixes -----

  /** `strip_host`: the second piece at '-', anything empty as it is. */
  function StripHost(uuid: Option<string>): Parsed<Option<string>> {
    match uuid
    case None => Ok(None)
    case Some(u) =>
      if u == "" then Ok(Some(u))
      else if |Split(u, '-')| < 2 then IndexError
      else Ok(Some(Split(u, '-')[1]))
  }

  /** Behind a dash-free host the object is recovered exactly when it has no dash.
      A host with a dash hides the object: the answer is a piece of the host. And
      without any dash the call raises. */
  lemma StripHostIff(host: string, object_: string)
    ensures '-' !in host ==> (StripHost(Some(host + "-" + object_)) == Ok(Some(object_)) <==> '-' !in object_)
    ensures '-' in host ==> StripHost(Some(host + "-" + object_)) == StripHost(Some(host))
    ensures '-' !in host && host != "" ==> StripHost(Some(host)) == IndexError
  {
    if '-' in host {
      SecondPieceKept(host, object_, '-');
    } else {
      SplitFirst(host, object_, '-');
      SplitWhole(host, '-');
      if '-' !in object_ { SplitWhole(object_, '-'); }
    }
  }

  lemma {:induction false} JoinHasNoDash(parts: seq<string>)
    requires forall k :: 0 <= k < |parts| ==> '-' !in parts[k]
    ensures '-' !in Join(parts, ' ')
  {
    if |parts| > 1 { JoinHasNoDash(parts[1..]); }
  }

  lemma PrintedHasNoDash(bytes: seq<Byte>)
    ensures '-' !in NormalToYang(bytes)
  {
    forall k | 0 <= k < |bytes| ensures '-' !in Numerals(bytes)[k] {
      NoSpaceInNumeral(bytes[k]);
    }
    JoinHasNoDash(Numerals(bytes));
  }

  /** The graph's node identifiers, host and object printed around a dash, give
      back the object, and with it the object's bytes. */
  lemma StripHostRecovers(host: seq<Byte>, object_: seq<Byte>)
    requires |object_| == 16
    ensures var r := StripHost(Some(NormalToYang(host) + "-" + NormalToYang(object_)));
            r == Ok(Some(NormalToYang(object_))) && YangToNormal(r.value.value) == Ok(object_)
  {
    PrintedHasNoDash(host);
    PrintedHasNoDash(object_);
    StripHostIff(NormalToYang(host), NormalToYang(object_));
    PrintThenParse(object_);
  }
}
