/** String helpers for the URLs the client builds and reads: ECMAScript's
    `encodeURIComponent` (section 19.2.6.5 of ECMA-262), a byte-level percent-decoder that
    inverts it, a reader for the `key=value` pairs of a query string, and `startsWith`. */
module Url {
  import opened Async

  type Byte = b: int | 0 <= b < 256

  /** The characters `encodeURIComponent` leaves as they are: ASCII letters, digits and
      the marks - _ . ! ~ * ' ( ). */
  predicate IsUnreserved(c: char) {
    ('A' <= c <= 'Z') || ('a' <= c <= 'z') || ('0' <= c <= '9') ||
    c == '-' || c == '_' || c == '.' || c == '!' || c == '~' ||
    c == '*' || c == '\'' || c == '(' || c == ')'
  }

  predicate IsContinuation(b: Byte) {
    0x80 <= b < 0xC0
  }

  /** The byte shape of a UTF-8 sequence for one scalar value: the lead byte announces the
      length and every other byte is a continuation byte. Overlong three- and four-byte forms
      also have this shape; `Utf8Char` picks the length from the value, so it produces only
      the shortest form. */
  predicate IsUtf8Sequence(bs: seq<Byte>) {
    match |bs|
    case 1 => bs[0] < 0x80
    case 2 => 0xC2 <= bs[0] < 0xE0 && IsContinuation(bs[1])
    case 3 => 0xE0 <= bs[0] < 0xF0 && IsContinuation(bs[1]) && IsContinuation(bs[2])
    case 4 => 0xF0 <= bs[0] < 0xF5 && IsContinuation(bs[1]) && IsContinuation(bs[2]) && IsContinuation(bs[3])
    case _ => false
  }

  /** The scalar value a UTF-8 sequence stands for (the decoding direction). */
  function ScalarOf(bs: seq<Byte>): int
    requires 1 <= |bs| <= 4
  {
    match |bs|
    case 1 => bs[0]
    case 2 => (bs[0] as int - 0xC0) * 64 + (bs[1] as int - 0x80)
    case 3 => (bs[0] as int - 0xE0) * 4096 + (bs[1] as int - 0x80) * 64 + (bs[2] as int - 0x80)
    case 4 =>
      (bs[0] as int - 0xF0) * 0x40000 + (bs[1] as int - 0x80) * 4096 +
      (bs[2] as int - 0x80) * 64 + (bs[3] as int - 0x80)
  }

  /** UTF-8 encoding of one character, as `encodeURIComponent` does before escaping. */
  function Utf8Char(c: char): (bs: seq<Byte>)
    ensures IsUtf8Sequence(bs)
    ensures ScalarOf(bs) == c as int
  {
    var cp := c as int;
    if cp < 0x80 then [cp]
    else if cp < 0x800 then Utf8Two(cp)
    else if cp < 0x10000 then Utf8Three(cp)
    else Utf8Four(cp)
  }

  function Utf8Two(cp: int): (bs: seq<Byte>)
    requires 0x80 <= cp < 0x800
    ensures IsUtf8Sequence(bs) && ScalarOf(bs) == cp
  {
    [0xC0 + cp / 64, 0x80 + cp % 64]
  }

  function Utf8Three(cp: int): (bs: seq<Byte>)
    requires 0x800 <= cp < 0x10000
    ensures IsUtf8Sequence(bs) && ScalarOf(bs) == cp
  {
    [0xE0 + cp / 4096, 0x80 + (cp / 64) % 64, 0x80 + cp % 64]
  }

  function Utf8Four(cp: int): (bs: seq<Byte>)
    requires 0x10000 <= cp < 0x110000
    ensures IsUtf8Sequence(bs) && ScalarOf(bs) == cp
  {
    [0xF0 + cp / 0x40000, 0x80 + (cp / 4096) % 64, 0x80 + (cp / 64) % 64, 0x80 + cp % 64]
  }

  function Utf8(s: string): seq<Byte> {
    if s == [] then [] else Utf8Char(s[0]) + Utf8(s[1..])
  }

  predicate IsHexDigit(c: char) {
    ('0' <= c <= '9') || ('A' <= c <= 'F') || ('a' <= c <= 'f')
  }

  /** Upper-case hexadecimal digit, as ECMA-262 prescribes for the escapes. */
  function HexDigit(n: int): (c: char)
    requires 0 <= n < 16
    ensures IsHexDigit(c) && IsUnreserved(c)
  {
    if n < 10 then ('0' as int + n) as char else ('A' as int + n - 10) as char
  }

  function HexValue(c: char): (v: int)
    requires IsHexDigit(c)
    ensures 0 <= v < 16
  {
    if c <= '9' then c as int - '0' as int
    else if c <= 'F' then c as int - 'A' as int + 10
    else c as int - 'a' as int + 10
  }

  function PercentByte(b: Byte): string {
    ['%', HexDigit(b / 16), HexDigit(b % 16)]
  }

  /** A text every character of which survives as-is in a query value. */
  predicate IsEscaped(t: string) {
    forall k :: 0 <= k < |t| ==> t[k] == '%' || IsUnreserved(t[k])
  }

  function PercentBytes(bs: seq<Byte>): (t: string)
    ensures |t| == 3 * |bs|
    ensures IsEscaped(t)
  {
    if bs == [] then "" else PercentByte(bs[0]) + PercentBytes(bs[1..])
  }

  function EncodeChar(c: char): (t: string)
    ensures IsEscaped(t)
  {
    if IsUnreserved(c) then [c] else PercentBytes(Utf8Char(c))
  }

  /** The strings of a sequence laid end to end. */
  function Concat(ts: seq<string>): string {
    if ts == [] then "" else ts[0] + Concat(ts[1..])
  }

  /** The escape of each character, in order. */
  function Escapes(s: string): (ts: seq<string>)
    ensures |ts| == |s|
    ensures forall i :: 0 <= i < |s| ==> ts[i] == EncodeChar(s[i])
  {
    seq(|s|, i requires 0 <= i < |s| => EncodeChar(s[i]))
  }

  /** `encodeURIComponent(s)`: every unreserved character is kept, every other one becomes
      the `%XX` escapes of its UTF-8 bytes. */
  function EncodeUriComponent(s: string): string {
    Concat(Escapes(s))
  }

  function Prepend(bs: seq<Byte>, rest: Option<seq<Byte>>): Option<seq<Byte>> {
    match rest
    case None => None
    case Some(r) => Some(bs + r)
  }

  /** Reference inverse of the escaping, down to bytes: an unreserved character stands for
      its own code, `%XY` for the byte XY; anything else is malformed. */
  function PercentDecodeBytes(t: string): Option<seq<Byte>>
    decreases |t|
  {
    if t == [] then Some([])
    else if t[0] == '%' then
      if |t| < 3 || !IsHexDigit(t[1]) || !IsHexDigit(t[2]) then None
      else Prepend([HexValue(t[1]) * 16 + HexValue(t[2])], PercentDecodeBytes(t[3..]))
    else if IsUnreserved(t[0]) then Prepend([t[0] as int], PercentDecodeBytes(t[1..]))
    else None
  }

  lemma DecodePercentByte(b: Byte, rest: string)
    ensures PercentDecodeBytes(PercentByte(b) + rest) == Prepend([b], PercentDecodeBytes(rest))
  {
    var t := PercentByte(b) + rest;
    assert t[0] == '%' && t[1] == HexDigit(b / 16) && t[2] == HexDigit(b % 16);
    assert t[3..] == rest;
    assert HexValue(HexDigit(b / 16)) * 16 + HexValue(HexDigit(b % 16)) == b;
  }

  lemma PrependTwice(a: seq<Byte>, b: seq<Byte>, rest: Option<seq<Byte>>)
    ensures Prepend(a, Prepend(b, rest)) == Prepend(a + b, rest)
  {
    match rest
    case None =>
    case Some(r) => assert a + (b + r) == (a + b) + r;
  }

  lemma {:induction false} DecodePercentBytes(bs: seq<Byte>, rest: string)
    ensures PercentDecodeBytes(PercentBytes(bs) + rest) == Prepend(bs, PercentDecodeBytes(rest))
    decreases |bs|
  {
    if bs == [] {
      assert PercentBytes(bs) + rest == rest;
      match PercentDecodeBytes(rest)
      case None =>
      case Some(r) => assert bs + r == r;
    } else {
      var tail := PercentBytes(bs[1..]) + rest;
      assert PercentBytes(bs) + rest == PercentByte(bs[0]) + tail;
      DecodePercentByte(bs[0], tail);
      DecodePercentBytes(bs[1..], rest);
      PrependTwice([bs[0]], bs[1..], PercentDecodeBytes(rest));
      assert [bs[0]] + bs[1..] == bs;
    }
  }

  lemma {:induction false} ConcatAppend(xs: seq<string>, ys: seq<string>)
    ensures Concat(xs + ys) == Concat(xs) + Concat(ys)
  {
    if xs == [] {
      assert xs + ys == ys;
    } else {
      assert (xs + ys)[0] == xs[0];
      assert (xs + ys)[1..] == xs[1..] + ys;
      ConcatAppend(xs[1..], ys);
      var x, cx, cy := xs[0], Concat(xs[1..]), Concat(ys);
      assert x + (cx + cy) == (x + cx) + cy;
    }
  }

  lemma {:induction false} ConcatEscaped(ts: seq<string>)
    requires forall i :: 0 <= i < |ts| ==> IsEscaped(ts[i])
    ensures IsEscaped(Concat(ts))
  {
    if ts != [] {
      ConcatEscaped(ts[1..]);
      var a, b := ts[0], Concat(ts[1..]);
      assert IsEscaped(a);
      forall k | 0 <= k < |a + b| ensures (a + b)[k] == '%' || IsUnreserved((a + b)[k]) {
        if k < |a| {
          assert (a + b)[k] == a[k];
        } else {
          assert (a + b)[k] == b[k - |a|];
        }
      }
    }
  }

  /** Whatever the input, the escaped text holds only `%` and unreserved characters, so no
      `&`, `=`, `?`, `#` or space. */
  lemma EncodeIsEscaped(s: string)
    ensures IsEscaped(EncodeUriComponent(s))
  {
    ConcatEscaped(Escapes(s));
  }

  /** Escaping distributes over concatenation. */
  lemma EncodeAppend(a: string, b: string)
    ensures EncodeUriComponent(a + b) == EncodeUriComponent(a) + EncodeUriComponent(b)
  {
    var ea, eb := Escapes(a), Escapes(b);
    assert Escapes(a + b) == ea + eb by {
      forall i | 0 <= i < |a + b| ensures Escapes(a + b)[i] == (ea + eb)[i] {
        if i < |a| {
          assert (a + b)[i] == a[i];
        } else {
          assert (a + b)[i] == b[i - |a|];
        }
      }
    }
    ConcatAppend(ea, eb);
  }

  /** First character, then the rest. */
  lemma EncodeCons(c: char, s: string)
    ensures EncodeUriComponent([c] + s) == EncodeChar(c) + EncodeUriComponent(s)
  {
    var ts := Escapes([c] + s);
    assert ts[0] == EncodeChar(c);
    assert ts[1..] == Escapes(s);
  }

  /** Round trip: percent-decoding `encodeURIComponent(s)` gives back exactly the UTF-8
      bytes of `s`. */
  lemma {:induction false} DecodeEncode(s: string)
    ensures PercentDecodeBytes(EncodeUriComponent(s)) == Some(Utf8(s))
  {
    if s != [] {
      var c := s[0];
      var rest := EncodeUriComponent(s[1..]);
      assert s == [c] + s[1..];
      EncodeCons(c, s[1..]);
      DecodeEncode(s[1..]);
      if IsUnreserved(c) {
        var t := [c] + rest;
        assert t[1..] == rest;
        assert Utf8Char(c) == [c as int];
      } else {
        DecodePercentBytes(Utf8Char(c), rest);
      }
    }
  }

  function StartsWith(s: string, prefix: string): bool {
    |prefix| <= |s| && s[..|prefix|] == prefix
  }

  /** Index of the first `c` in `s`, or `|s|` when there is none. */
  function IndexOf(s: string, c: char): (i: nat)
    ensures i <= |s|
    ensures i < |s| ==> s[i] == c
    ensures forall k :: 0 <= k < i ==> s[k] != c
  {
    if s == [] || s[0] == c then 0 else 1 + IndexOf(s[1..], c)
  }

  /** `s.split(sep)`. */
  function Split(s: string, sep: char): (parts: seq<string>)
    ensures |parts| >= 1
    decreases |s|
  {
    var i := IndexOf(s, sep);
    if i == |s| then [s] else [s[..i]] + Split(s[i + 1..], sep)
  }

  /** A `key=value` pair cut at its first `=`. */
  function KeyValue(p: string): (string, string) {
    var i := IndexOf(p, '=');
    if i == |p| then (p, "") else (p[..i], p[i + 1..])
  }

  function KeyValues(parts: seq<string>): (ps: seq<(string, string)>)
    ensures |ps| == |parts|
  {
    if parts == [] then [] else [KeyValue(parts[0])] + KeyValues(parts[1..])
  }

  /** The `key=value` pairs after the first `?`, in order, values left escaped. */
  function QueryParams(url: string): seq<(string, string)> {
    var q := IndexOf(url, '?');
    if q == |url| then [] else KeyValues(Split(url[q + 1..], '&'))
  }

  /** One query parameter written out as `key=value`. */
  function Param(p: (string, string)): string {
    p.0 + "=" + p.1
  }

  /** Parameters written out and joined with `&`, as a template literal lays them down. */
  function JoinParams(ps: seq<(string, string)>): string
    requires |ps| >= 1
  {
    if |ps| == 1 then Param(ps[0]) else Param(ps[0]) + "&" + JoinParams(ps[1..])
  }

  /** Parameters that can be read back: no key holds `=` or `&`, no value holds `&`. */
  predicate Joinable(ps: seq<(string, string)>) {
    forall k :: 0 <= k < |ps| ==> '=' !in ps[k].0 && '&' !in ps[k].0 && '&' !in ps[k].1
  }

  lemma SplitNoSeparator(a: string, sep: char)
    requires sep !in a
    ensures Split(a, sep) == [a]
  {
    assert IndexOf(a, sep) == |a|;
  }

  lemma SplitAt(a: string, sep: char, b: string)
    requires sep !in a
    ensures Split(a + [sep] + b, sep) == [a] + Split(b, sep)
  {
    var s := a + [sep] + b;
    assert s[|a|] == sep;
    assert forall k :: 0 <= k < |a| ==> s[k] == a[k];
    assert IndexOf(s, sep) == |a|;
    assert s[..|a|] == a;
    assert s[|a| + 1..] == b;
  }

  lemma KeyValueAt(k: string, v: string)
    requires '=' !in k
    ensures KeyValue(k + "=" + v) == (k, v)
  {
    var p := k + "=" + v;
    assert p[|k|] == '=';
    assert forall j :: 0 <= j < |k| ==> p[j] == k[j];
    assert IndexOf(p, '=') == |k|;
    assert p[..|k|] == k;
    assert p[|k| + 1..] == v;
  }

  lemma NoSeparatorInParam(p: (string, string))
    requires '&' !in p.0 && '&' !in p.1
    ensures '&' !in Param(p)
  {
    var t := Param(p);
    forall k | 0 <= k < |t| ensures t[k] != '&' {
      if k < |p.0| {
        assert t[k] == p.0[k];
      } else if k > |p.0| {
        assert t[k] == p.1[k - |p.0| - 1];
      }
    }
  }

  lemma SplitJoinStep(p: (string, string), rest: string)
    requires '=' !in p.0 && '&' !in p.0 && '&' !in p.1
    ensures KeyValues(Split(Param(p) + "&" + rest, '&')) == [p] + KeyValues(Split(rest, '&'))
  {
    NoSeparatorInParam(p);
    KeyValueAt(p.0, p.1);
    SplitAt(Param(p), '&', rest);
    var parts := Split(Param(p) + "&" + rest, '&');
    assert parts[0] == Param(p);
    assert parts[1..] == Split(rest, '&');
  }

  /** Round trip: splitting the joined parameters on `&` and cutting each at its first `=`
      gives back every parameter, in order. */
  lemma {:induction false} SplitJoin(ps: seq<(string, string)>)
    requires |ps| >= 1 && Joinable(ps)
    ensures KeyValues(Split(JoinParams(ps), '&')) == ps
    decreases |ps|
  {
    var p := ps[0];
    assert '=' !in p.0 && '&' !in p.0 && '&' !in p.1;
    if |ps| == 1 {
      NoSeparatorInParam(p);
      KeyValueAt(p.0, p.1);
      SplitNoSeparator(Param(p), '&');
      assert KeyValues([Param(p)]) == [KeyValue(Param(p))] + KeyValues([]);
    } else {
      assert Joinable(ps[1..]) by {
        forall k | 0 <= k < |ps| - 1 ensures '=' !in ps[1..][k].0 && '&' !in ps[1..][k].0 && '&' !in ps[1..][k].1 {
          assert ps[1..][k] == ps[k + 1];
        }
      }
      SplitJoin(ps[1..]);
      SplitJoinStep(p, JoinParams(ps[1..]));
      assert ps == [p] + ps[1..];
    }
  }

  /** Text made of unreserved characters only is left exactly as it is. */
  lemma {:induction false} EncodeUnreserved(s: string)
    requires forall k :: 0 <= k < |s| ==> IsUnreserved(s[k])
    ensures EncodeUriComponent(s) == s
  {
    if s != [] {
      EncodeUnreserved(s[1..]);
      assert s == [s[0]] + s[1..];
      EncodeCons(s[0], s[1..]);
    }
  }

  /** An ASCII character outside the unreserved set becomes a single `%XX` escape. */
  lemma EncodeAsciiReserved(c: char)
    requires c as int < 0x80 && !IsUnreserved(c)
    ensures EncodeChar(c) == PercentByte(c as int)
  {
    assert Utf8Char(c) == [c as int];
    assert PercentBytes([c as int]) == PercentByte(c as int) + PercentBytes([]);
  }

  lemma EncodeReservedHead(c: char, b: string)
    requires c as int < 0x80 && !IsUnreserved(c)
    ensures EncodeUriComponent([c] + b) == PercentByte(c as int) + EncodeUriComponent(b)
  {
    EncodeCons(c, b);
    EncodeAsciiReserved(c);
  }

  lemma SpaceEscape()
    ensures PercentByte(' ' as int) == "%20"
  {
    assert HexDigit(2) == '2' && HexDigit(0) == '0';
  }

  /** A space-separated list is escaped item by item, each space becoming `%20`. */
  lemma EncodeSpaceJoined(a: string, b: string)
    ensures EncodeUriComponent(a + " " + b) == EncodeUriComponent(a) + "%20" + EncodeUriComponent(b)
  {
    var sb := [' '] + b;
    assert a + " " + b == a + sb;
    EncodeAppend(a, sb);
    EncodeReservedHead(' ', b);
    SpaceEscape();
    var ea, eb := EncodeUriComponent(a), EncodeUriComponent(b);
    assert ea + ("%20" + eb) == ea + "%20" + eb;
  }
}
