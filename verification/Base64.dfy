/** Base64 as section 4 of RFC 4648 defines it, read back by a decoder that passes over line ends. */
module Base64 {
  import opened Common

  /** Strings as the bytes they are. */
  predicate ByteString(s: string) {
    forall i :: 0 <= i < |s| ==> s[i] as int < 256
  }

  function ToBytes(s: string): (b: Bytes)
    requires ByteString(s)
    ensures |b| == |s|
  {
    seq(|s|, i requires 0 <= i < |s| => s[i] as byte)
  }

  function FromBytes(b: Bytes): (s: string)
    ensures |s| == |b| && ByteString(s)
  {
    seq(|b|, i requires 0 <= i < |b| => b[i] as char)
  }

  lemma FromToBytes(s: string)
    requires ByteString(s)
    ensures FromBytes(ToBytes(s)) == s
  {
  }

  // ---------------------------------------------------------------- the alphabet

  function Symbol(n: nat): (c: char)
    requires n < 64
    ensures ValueOf(c) == Some(n) && c != '\n' && c != '\r' && c != '='
  {
    if n < 26 then ('A' as int + n) as char
    else if n < 52 then ('a' as int + n - 26) as char
    else if n < 62 then ('0' as int + n - 52) as char
    else if n == 62 then '+'
    else '/'
  }

  function ValueOf(c: char): (r: Option<nat>)
    ensures r.Some? ==> r.value < 64
  {
    if 'A' <= c <= 'Z' then Some(c as int - 'A' as int)
    else if 'a' <= c <= 'z' then Some(c as int - 'a' as int + 26)
    else if '0' <= c <= '9' then Some(c as int - '0' as int + 52)
    else if c == '+' then Some(62)
    else if c == '/' then Some(63)
    else None
  }

  // ---------------------------------------------------------------- encoding

  /** Three bytes are four symbols; one or two at the end are filled up. */
  function Encode(b: Bytes): string {
    if |b| == 0 then ""
    else if |b| == 1 then Quad(b[0], 0, 0)[..2] + "=="
    else if |b| == 2 then Quad(b[0], b[1], 0)[..3] + "="
    else Quad(b[0], b[1], b[2]) + Encode(b[3..])
  }

  function Quad(x: byte, y: byte, z: byte): (s: string)
    ensures |s| == 4
  {
    var (a, b, c) := (x as int, y as int, z as int);
    [Symbol(a / 4), Symbol(a % 4 * 16 + b / 16), Symbol(b % 16 * 4 + c / 64), Symbol(c % 64)]
  }

  // ---------------------------------------------------------------- decoding

  function DropLineEnds(s: string): string {
    if s == "" then ""
    else (if s[0] == '\r' || s[0] == '\n' then "" else [s[0]]) + DropLineEnds(s[1..])
  }

  function First(p: nat, q: nat): byte
    requires p < 64 && q < 64
  {
    (p * 4 + q / 16) as byte
  }

  function Second(q: nat, r: nat): byte
    requires q < 64 && r < 64
  {
    (q % 16 * 16 + r / 4) as byte
  }

  function Third(r: nat, t: nat): byte
    requires r < 64 && t < 64
  {
    (r % 4 * 64 + t) as byte
  }

  /** Filling is allowed only at the very end; what its bits were is not looked at. */
  function DecodeQuads(s: string): Option<Bytes> {
    if s == "" then Some([])
    else if |s| < 4 then None
    else
      var (p, q, r, t) := (ValueOf(s[0]), ValueOf(s[1]), ValueOf(s[2]), ValueOf(s[3]));
      if p.None? || q.None? then None
      else if s[2] == '=' then
        if s[3] == '=' && |s| == 4 then Some([First(p.value, q.value)]) else None
      else if r.None? then None
      else if s[3] == '=' then
        if |s| == 4 then Some([First(p.value, q.value), Second(q.value, r.value)]) else None
      else if t.None? then None
      else
        var rest := DecodeQuads(s[4..]);
        if rest.None? then None
        else Some([First(p.value, q.value), Second(q.value, r.value), Third(r.value, t.value)] + rest.value)
  }

  function Decode(s: string): Option<Bytes> {
    DecodeQuads(DropLineEnds(s))
  }

  // ---------------------------------------------------------------- as the standard has it

  /** Table 1 of the standard: the capitals, the small letters, the digits, plus and slash, each run in order. */
  lemma AlphabetIs(n: nat)
    requires n < 64
    ensures Symbol(0) == 'A' && Symbol(25) == 'Z' && Symbol(26) == 'a' && Symbol(51) == 'z'
    ensures Symbol(52) == '0' && Symbol(61) == '9' && Symbol(62) == '+' && Symbol(63) == '/'
    ensures n < 61 && n != 25 && n != 51 ==> Symbol(n + 1) as int == Symbol(n) as int + 1
  {
  }

  /** Three bytes, and the four numbers their symbols stand for, are the same number of 24 bits. */
  lemma QuadIs(x: byte, y: byte, z: byte)
    ensures var q := Quad(x, y, z);
            && ValueOf(q[0]).Some? && ValueOf(q[1]).Some? && ValueOf(q[2]).Some? && ValueOf(q[3]).Some?
            && 65536 * x as int + 256 * y as int + z as int ==
               262144 * ValueOf(q[0]).value + 4096 * ValueOf(q[1]).value + 64 * ValueOf(q[2]).value
                   + ValueOf(q[3]).value
  {
    hide Symbol, ValueOf;
  }

  /** Test vectors of section 10 of RFC 4648: "f", "fo" and "foo". */
  lemma TestVectors()
    ensures Encode([102]) == "Zg==" && Encode([102, 111]) == "Zm8=" && Encode([102, 111, 111]) == "Zm9v"
  {
    VectorQuads();
    hide Quad;
    assert Encode([102, 111, 111][3..]) == "";
  }

  lemma VectorQuads()
    ensures Quad(102, 0, 0)[..2] == "Zg" && Quad(102, 111, 0)[..3] == "Zm8" && Quad(102, 111, 111) == "Zm9v"
  {
    assert Symbol(25) == 'Z' && Symbol(32) == 'g' && Symbol(38) == 'm' && Symbol(60) == '8';
    assert Symbol(61) == '9' && Symbol(47) == 'v';
    hide Symbol;
  }

  /** Whole groups of four symbols, at most the last two of them filled up. */
  ghost predicate IsBase64(s: string) {
    |s| % 4 == 0 && exists fill: nat :: fill <= 2 && Filled(s, fill)
  }

  ghost predicate Filled(s: string, fill: nat) {
    && fill <= |s|
    && (forall i :: |s| - fill <= i < |s| ==> s[i] == '=')
    && (forall i :: 0 <= i < |s| - fill ==> ValueOf(s[i]).Some?)
  }

  lemma FilledRest(s: string, fill: nat)
    requires |s| > 4 && |s| % 4 == 0 && fill <= 2
    ensures Filled(s, fill) <==>
            Filled(s[4..], fill) && ValueOf(s[0]).Some? && ValueOf(s[1]).Some? && ValueOf(s[2]).Some?
                && ValueOf(s[3]).Some?
  {
    hide ValueOf;
    var rest := s[4..];
    assert forall i :: 0 <= i < |rest| ==> rest[i] == s[i + 4];
    if Filled(rest, fill) && ValueOf(s[0]).Some? && ValueOf(s[1]).Some? && ValueOf(s[2]).Some? && ValueOf(s[3]).Some? {
      forall i | 0 <= i < |s| - fill ensures ValueOf(s[i]).Some? {
        if i >= 4 { assert rest[i - 4] == s[i]; }
      }
      forall i | |s| - fill <= i < |s| ensures s[i] == '=' {
        assert rest[i - 4] == s[i];
      }
    }
  }

  lemma IsBase64Rest(s: string)
    requires |s| > 4 && |s| % 4 == 0
    ensures IsBase64(s) <==>
            IsBase64(s[4..]) && ValueOf(s[0]).Some? && ValueOf(s[1]).Some? && ValueOf(s[2]).Some? && ValueOf(s[3]).Some?
  {
    hide Filled, ValueOf;
    FilledRest(s, 0);
    FilledRest(s, 1);
    FilledRest(s, 2);
  }

  lemma LastQuad(s: string)
    requires |s| == 4
    ensures IsBase64(s) <==>
            && ValueOf(s[0]).Some? && ValueOf(s[1]).Some?
            && ((s[2] == '=' && s[3] == '=') || (ValueOf(s[2]).Some? && (s[3] == '=' || ValueOf(s[3]).Some?)))
  {
    assert ValueOf('=') == None;
    hide ValueOf;
    assert Filled(s, 0) <==> ValueOf(s[0]).Some? && ValueOf(s[1]).Some? && ValueOf(s[2]).Some? && ValueOf(s[3]).Some?;
    assert Filled(s, 1) <==> ValueOf(s[0]).Some? && ValueOf(s[1]).Some? && ValueOf(s[2]).Some? && s[3] == '=';
    assert Filled(s, 2) <==> ValueOf(s[0]).Some? && ValueOf(s[1]).Some? && s[2] == '=' && s[3] == '=';
    hide Filled;
  }

  lemma DecodeLast(s: string)
    requires |s| == 4
    ensures DecodeQuads(s).Some? <==> IsBase64(s)
  {
    LastQuad(s);
    assert ValueOf('=') == None;
    hide ValueOf, First, Second, Third, IsBase64;
    assert DecodeQuads(s[4..]) == Some([]);
  }

  lemma DecodeMore(s: string)
    requires |s| > 4
    ensures DecodeQuads(s).Some? <==>
            && DecodeQuads(s[4..]).Some?
            && ValueOf(s[0]).Some? && ValueOf(s[1]).Some? && ValueOf(s[2]).Some? && ValueOf(s[3]).Some?
  {
    assert ValueOf('=') == None;
    hide ValueOf, First, Second, Third;
  }

  /** Exactly such texts are decoded. */
  lemma {:induction false} DecodesIff(s: string)
    ensures DecodeQuads(s).Some? <==> IsBase64(s)
    decreases |s|
  {
    hide DecodeQuads, ValueOf, IsBase64;
    if |s| < 4 {
      DecodeShort(s);
    } else if |s| == 4 {
      DecodeLast(s);
    } else {
      DecodesIff(s[4..]);
      DecodeMore(s);
      if |s| % 4 == 0 {
        IsBase64Rest(s);
      } else {
        NotWhole(s);
        NotWhole(s[4..]);
      }
    }
  }

  lemma NotWhole(s: string)
    requires |s| % 4 != 0
    ensures !IsBase64(s)
  {
  }

  lemma DecodeShort(s: string)
    requires |s| < 4
    ensures DecodeQuads(s).Some? <==> IsBase64(s)
  {
    if s == "" { assert Filled(s, 0); }
    hide ValueOf;
  }

  // ---------------------------------------------------------------- back again

  lemma QuadBack(x: byte, y: byte, z: byte)
    ensures var (a, b, c) := (x as int, y as int, z as int);
            && First(a / 4, a % 4 * 16 + b / 16) == x
            && Second(a % 4 * 16 + b / 16, b % 16 * 4 + c / 64) == y
            && Third(b % 16 * 4 + c / 64, c % 64) == z
  {
  }

  lemma OneByte(x: byte)
    ensures DecodeQuads(Quad(x, 0, 0)[..2] + "==") == Some([x])
  {
    hide Symbol, ValueOf, First, Second, Third;
    QuadBack(x, 0, 0);
    var s := Quad(x, 0, 0)[..2] + "==";
    assert s[2] == '=' && s[3] == '=';
  }

  lemma TwoBytes(x: byte, y: byte)
    ensures DecodeQuads(Quad(x, y, 0)[..3] + "=") == Some([x, y])
  {
    hide Symbol, ValueOf, First, Second, Third;
    QuadBack(x, y, 0);
    var s := Quad(x, y, 0)[..3] + "=";
    assert s[3] == '=';
  }

  lemma ThreeBytes(x: byte, y: byte, z: byte, rest: string)
    requires DecodeQuads(rest).Some?
    ensures DecodeQuads(Quad(x, y, z) + rest) == Some([x, y, z] + DecodeQuads(rest).value)
  {
    hide Symbol, ValueOf, First, Second, Third;
    QuadBack(x, y, z);
    assert (Quad(x, y, z) + rest)[4..] == rest;
  }

  lemma {:induction false} DecodeEncoded(b: Bytes)
    ensures DecodeQuads(Encode(b)) == Some(b)
    decreases |b|
  {
    hide DecodeQuads, Quad;
    if |b| == 0 {
      NoQuads();
    } else if |b| == 1 {
      OneByte(b[0]);
      assert b == [b[0]];
    } else if |b| == 2 {
      TwoBytes(b[0], b[1]);
      assert b == [b[0], b[1]];
    } else {
      DecodeEncoded(b[3..]);
      ThreeBytes(b[0], b[1], b[2], Encode(b[3..]));
      assert b == [b[0], b[1], b[2]] + b[3..];
    }
  }

  lemma NoQuads()
    ensures DecodeQuads("") == Some([])
  {
  }

  lemma {:induction false} NoLineEnds(b: Bytes)
    ensures '\n' !in Encode(b) && '\r' !in Encode(b)
    decreases |b|
  {
    hide Quad;
    if |b| == 1 {
      QuadClean(b[0], 0, 0);
    } else if |b| == 2 {
      QuadClean(b[0], b[1], 0);
    } else if |b| > 2 {
      QuadClean(b[0], b[1], b[2]);
      NoLineEnds(b[3..]);
    }
  }

  lemma QuadClean(x: byte, y: byte, z: byte)
    ensures '\n' !in Quad(x, y, z) && '\r' !in Quad(x, y, z)
  {
    hide Symbol, ValueOf;
  }

  lemma {:induction false} NothingToDrop(s: string)
    requires '\n' !in s && '\r' !in s
    ensures DropLineEnds(s) == s
  {
    if s != "" {
      NothingToDrop(s[1..]);
      assert s == [s[0]] + s[1..];
    }
  }

  /** Every sequence of bytes comes back. */
  lemma DecodeEncode(b: Bytes)
    ensures Decode(Encode(b)) == Some(b)
  {
    NoLineEnds(b);
    NothingToDrop(Encode(b));
    DecodeEncoded(b);
  }

  /** Broken into lines in any way it still does. */
  lemma DecodeWrapped(b: Bytes, s: string)
    requires DropLineEnds(s) == Encode(b)
    ensures Decode(s) == Some(b)
  {
    DecodeEncoded(b);
  }
}

/** A subscription: the list of a user's links as one text, and the list read from such a text. */
module Subscription {
  import opened Text
  import opened Base64

  function Convert(uris: seq<string>): string
    requires ByteString(Join(uris, '\n'))
  {
    Encode(ToBytes(Join(uris, '\n')))
  }

  /** A text that is not base64 is taken for a single link. */
  function Fetch(data: string): seq<string> {
    var raw := Decode(data);
    if raw.None? then [data] else Split(FromBytes(raw.value), '\n')
  }

  /** A text that is base64, line ends aside, is decoded and split; any other is a single link. */
  lemma FetchIs(data: string)
    ensures IsBase64(DropLineEnds(data)) <==> Decode(data).Some?
    ensures Fetch(data) == if IsBase64(DropLineEnds(data)) then Split(FromBytes(Decode(data).value), '\n') else [data]
  {
    DecodesIff(DropLineEnds(data));
    hide IsBase64, DecodeQuads;
  }

  /** The list comes back exactly when it is not empty and no link holds a line end. */
  lemma FetchConvert(uris: seq<string>)
    requires ByteString(Join(uris, '\n'))
    ensures Fetch(Convert(uris)) == uris <==> uris != [] && forall u :: u in uris ==> '\n' !in u
  {
    var text := Join(uris, '\n');
    DecodeEncode(ToBytes(text));
    FromToBytes(text);
    SplitJoin(uris, '\n');
  }
}
