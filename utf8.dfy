/** UTF-8 as the Lab3 programs use it: `bytes.decode('utf-8')` either
    succeeds or raises, and `open(name, 'r', encoding='utf-8').read()` also
    applies universal-newline translation. Well-formedness follows the
    byte-sequence table of section 4 of RFC 3629. */
module Utf8 {

  import opened Opt
  import opened Bytes

  predicate IsCont(b: byte)
  {
    0x80 <= b <= 0xBF
  }

  /** Length of the well-formed sequence at the start of b, or 0 if b does
      not start with one. */
  function LeadLength(b: bytes): (n: nat)
    requires b != []
    ensures n <= |b| && n <= 4
  {
    var b0 := b[0];
    if b0 <= 0x7F then 1
    else if 0xC2 <= b0 <= 0xDF then
      (if |b| >= 2 && IsCont(b[1]) then 2 else 0)
    else if b0 == 0xE0 then
      (if |b| >= 3 && 0xA0 <= b[1] <= 0xBF && IsCont(b[2]) then 3 else 0)
    else if (0xE1 <= b0 <= 0xEC) || (0xEE <= b0 <= 0xEF) then
      (if |b| >= 3 && IsCont(b[1]) && IsCont(b[2]) then 3 else 0)
    else if b0 == 0xED then
      (if |b| >= 3 && 0x80 <= b[1] <= 0x9F && IsCont(b[2]) then 3 else 0)
    else if b0 == 0xF0 then
      (if |b| >= 4 && 0x90 <= b[1] <= 0xBF && IsCont(b[2]) && IsCont(b[3]) then 4 else 0)
    else if 0xF1 <= b0 <= 0xF3 then
      (if |b| >= 4 && IsCont(b[1]) && IsCont(b[2]) && IsCont(b[3]) then 4 else 0)
    else if b0 == 0xF4 then
      (if |b| >= 4 && 0x80 <= b[1] <= 0x8F && IsCont(b[2]) && IsCont(b[3]) then 4 else 0)
    else 0
  }

  /** `b.decode('utf-8')` does not raise. */
  predicate ValidUtf8(b: bytes)
    decreases |b|
  {
    b == [] || (LeadLength(b) > 0 && ValidUtf8(b[LeadLength(b)..]))
  }

  predicate IsAscii(s: string)
  {
    forall i :: 0 <= i < |s| ==> s[i] < '\U{80}'
  }

  /** `s.encode('utf-8')` for an ASCII string: one byte per character. */
  function AsciiBytes(s: string): (r: bytes)
    requires IsAscii(s)
    ensures |r| == |s|
    ensures forall i :: 0 <= i < |s| ==> r[i] == s[i] as int
  {
    seq(|s|, i requires 0 <= i < |s| => s[i] as int)
  }

  /** ASCII text always decodes. */
  lemma {:induction false} AsciiValid(s: string)
    requires IsAscii(s)
    ensures ValidUtf8(AsciiBytes(s))
    decreases |s|
  {
    if s != [] {
      AsciiValid(s[1..]);
      var r := AsciiBytes(s);
      assert r[1..] == AsciiBytes(s[1..]);
      assert LeadLength(r) == 1;
    }
  }

  /** Two valid texts side by side are a valid text. */
  lemma {:induction false} ValidConcat(a: bytes, b: bytes)
    requires ValidUtf8(a) && ValidUtf8(b)
    ensures ValidUtf8(a + b)
    decreases |a|
  {
    if a != [] {
      var n := LeadLength(a);
      assert (a + b)[..n] == a[..n];
      assert LeadLength(a + b) == n;
      assert (a + b)[n..] == a[n..] + b;
      ValidConcat(a[n..], b);
    } else {
      assert a + b == b;
    }
  }

  const CR: byte := 13
  const LF: byte := 10

  /** Universal newlines: every "\r\n" and every lone "\r" becomes "\n".
      CR and LF are ASCII, so doing this on the encoded bytes of a valid
      text is the same as doing it on the decoded characters. */
  function TranslateNewlines(b: bytes): (r: bytes)
    ensures CR !in r
    ensures |r| <= |b|
    decreases |b|
  {
    if b == [] then []
    else if b[0] == CR then
      [LF] + TranslateNewlines(if |b| > 1 && b[1] == LF then b[2..] else b[1..])
    else [b[0]] + TranslateNewlines(b[1..])
  }

  /** Text without carriage returns is read back unchanged. */
  lemma {:induction false} TranslateNoCR(b: bytes)
    requires CR !in b
    ensures TranslateNewlines(b) == b
    decreases |b|
  {
    if b != [] {
      assert b[0] != CR;
      assert CR !in b[1..];
      TranslateNoCR(b[1..]);
      assert [b[0]] + b[1..] == b;
    }
  }

  /** Translation passes a carriage-return-free prefix through unchanged. */
  lemma {:induction false} TranslateAppend(x: bytes, y: bytes)
    requires CR !in x
    ensures TranslateNewlines(x + y) == x + TranslateNewlines(y)
    decreases |x|
  {
    if x != [] {
      assert (x + y)[0] == x[0] && (x + y)[1..] == x[1..] + y;
      assert CR !in x[1..];
      TranslateAppend(x[1..], y);
      assert [x[0]] + x[1..] == x;
    } else {
      assert x + y == y;
    }
  }

  /** The length of the first sequence depends only on its own bytes. */
  lemma LeadLengthPrefix(b: bytes, c: bytes)
    requires b != [] && LeadLength(b) > 0
    ensures LeadLength(b[..LeadLength(b)] + c) == LeadLength(b)
  {
    var n := LeadLength(b);
    var d := b[..n] + c;
    assert forall i :: 0 <= i < n ==> d[i] == b[i];
  }

  /** A multi-byte sequence holds no ASCII byte, so no carriage return. */
  lemma LeadNoCR(b: bytes)
    requires b != [] && LeadLength(b) > 0 && b[0] != CR
    ensures CR !in b[..LeadLength(b)]
  {
    var n := LeadLength(b);
    assert forall i :: 1 <= i < n ==> b[i] >= 0x80;
  }

  /** Newline translation keeps a valid text valid. */
  lemma {:induction false} TranslateKeepsValid(b: bytes)
    requires ValidUtf8(b)
    ensures ValidUtf8(TranslateNewlines(b))
    decreases |b|
  {
    if b != [] {
      var n := LeadLength(b);
      if b[0] == CR {
        assert n == 1;
        var rest := b[1..];
        if |b| > 1 && b[1] == LF {
          assert LeadLength(rest) == 1 && rest[1..] == b[2..];
          TranslateKeepsValid(b[2..]);
        } else {
          TranslateKeepsValid(rest);
        }
        var r := TranslateNewlines(b);
        assert LeadLength(r) == 1 && r[1..] == TranslateNewlines(if |b| > 1 && b[1] == LF then b[2..] else b[1..]);
      } else {
        LeadNoCR(b);
        assert b == b[..n] + b[n..];
        TranslateAppend(b[..n], b[n..]);
        TranslateKeepsValid(b[n..]);
        var r := TranslateNewlines(b);
        assert r == b[..n] + TranslateNewlines(b[n..]);
        LeadLengthPrefix(b, TranslateNewlines(b[n..]));
        assert r[n..] == TranslateNewlines(b[n..]);
      }
    }
  }

  /** `open(path, 'r', encoding='utf-8').read().encode('utf-8')`: the bytes
      a text-mode read hands back after re-encoding, or None where the read
      raises UnicodeDecodeError. */
  function TextModeRead(content: bytes): (r: Option<bytes>)
    ensures r.Some? <==> ValidUtf8(content)
    ensures r.Some? ==> ValidUtf8(r.value) && CR !in r.value && |r.value| <= |content|
  {
    if ValidUtf8(content) then
      TranslateKeepsValid(content);
      Some(TranslateNewlines(content))
    else None
  }

  /** A valid text without carriage returns survives a text-mode read. */
  lemma TextModeReadPlain(content: bytes)
    requires ValidUtf8(content) && CR !in content
    ensures TextModeRead(content) == Some(content)
  {
    TranslateNoCR(content);
  }
}
