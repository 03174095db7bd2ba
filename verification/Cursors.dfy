/** Continuation cursors: a prefix, then a big-endian offset and the plan fingerprint in unpadded base64url. */
module Cursors {
  import opened Base
  import opened HeaderGuard

  const OFFSET_BYTES := 8
  const FINGERPRINT_BYTES := 32
  const PREFIX := "cursor1_"

  type Sextet = d: nat | d < 64

  datatype CursorError = OffsetTooLarge | PaginationConflict

  // ---------------------------------------------------------------- base64

  /** The URL-safe alphabet of RFC 4648, section 5. */
  function Symbol(d: Sextet): char {
    if d < 26 then ('A' as int + d) as char
    else if d < 52 then ('a' as int + (d - 26)) as char
    else if d < 62 then ('0' as int + (d - 52)) as char
    else if d == 62 then '-'
    else '_'
  }

  function ValueOf(c: char): Option<Sextet> {
    if 'A' <= c <= 'Z' then Some((c as int - 'A' as int) as Sextet)
    else if 'a' <= c <= 'z' then Some((c as int - 'a' as int + 26) as Sextet)
    else if '0' <= c <= '9' then Some((c as int - '0' as int + 52) as Sextet)
    else if c == '-' then Some(62)
    else if c == '_' then Some(63)
    else None
  }

  lemma SymbolReads(d: Sextet)
    ensures ValueOf(Symbol(d)) == Some(d)
  {
  }

  lemma ReadSymbol(c: char)
    ensures ValueOf(c).Some? ==> Symbol(ValueOf(c).value) == c
  {
  }

  // Three bytes cut into four sextets, and put together again.
  function CutA(x: Byte): Sextet { x / 4 }

  function CutB(x: Byte, y: Byte): Sextet { x % 4 * 16 + y / 16 }

  function CutC(y: Byte, z: Byte): Sextet { y % 16 * 4 + z / 64 }

  function CutD(z: Byte): Sextet { z % 64 }

  function JoinX(a: Sextet, b: Sextet): Byte { a * 4 + b / 16 }

  function JoinY(b: Sextet, c: Sextet): Byte { b % 16 * 16 + c / 4 }

  function JoinZ(c: Sextet, d: Sextet): Byte { c % 4 * 64 + d }

  lemma JoinsCuts(x: Byte, y: Byte, z: Byte)
    ensures JoinX(CutA(x), CutB(x, y)) == x
    ensures JoinY(CutB(x, y), CutC(y, z)) == y
    ensures JoinZ(CutC(y, z), CutD(z)) == z
  {
  }

  /** Three bytes as four sextets; a last one or two as two or three, the unused bits zero. */
  function Encode64(s: seq<Byte>): string
    decreases |s|
  {
    if |s| == 0 then ""
    else if |s| == 1 then [Symbol(CutA(s[0])), Symbol(CutB(s[0], 0))]
    else if |s| == 2 then [Symbol(CutA(s[0])), Symbol(CutB(s[0], s[1])), Symbol(CutC(s[1], 0))]
    else [Symbol(CutA(s[0])), Symbol(CutB(s[0], s[1])), Symbol(CutC(s[1], s[2])), Symbol(CutD(s[2]))] + Encode64(s[3..])
  }

  /** Reads the bytes and drops whatever the unused bits of the last symbol hold. */
  function Decode64(text: string): Option<seq<Byte>>
    decreases |text|
  {
    if text == "" then Some([])
    else if |text| == 1 then None
    else
      var a, b := ValueOf(text[0]), ValueOf(text[1]);
      if a.None? || b.None? then None
      else if |text| == 2 then Some([JoinX(a.value, b.value)])
      else
        var c := ValueOf(text[2]);
        if c.None? then None
        else if |text| == 3 then Some([JoinX(a.value, b.value), JoinY(b.value, c.value)])
        else
          var d := ValueOf(text[3]);
          var rest := Decode64(text[4..]);
          if d.None? || rest.None? then None
          else Some([JoinX(a.value, b.value), JoinY(b.value, c.value), JoinZ(c.value, d.value)] + rest.value)
  }

  lemma FourRead(a: Sextet, b: Sextet, c: Sextet, d: Sextet, rest: string)
    requires Decode64(rest).Some?
    ensures Decode64([Symbol(a), Symbol(b), Symbol(c), Symbol(d)] + rest)
         == Some([JoinX(a, b), JoinY(b, c), JoinZ(c, d)] + Decode64(rest).value)
  {
    hide Symbol, ValueOf, JoinX, JoinY, JoinZ;
    SymbolReads(a);
    SymbolReads(b);
    SymbolReads(c);
    SymbolReads(d);
    assert ([Symbol(a), Symbol(b), Symbol(c), Symbol(d)] + rest)[4..] == rest;
  }

  lemma {:induction false} DecodeEncoded(s: seq<Byte>)
    ensures Decode64(Encode64(s)) == Some(s)
    decreases |s|
  {
    hide Symbol, ValueOf, JoinX, JoinY, JoinZ, CutA, CutB, CutC, CutD;
    if |s| == 1 {
      JoinsCuts(s[0], 0, 0);
      SymbolReads(CutA(s[0]));
      SymbolReads(CutB(s[0], 0));
      assert s == [s[0]];
    } else if |s| == 2 {
      JoinsCuts(s[0], s[1], 0);
      SymbolReads(CutA(s[0]));
      SymbolReads(CutB(s[0], s[1]));
      SymbolReads(CutC(s[1], 0));
      assert s == [s[0], s[1]];
    } else if |s| > 2 {
      DecodeEncoded(s[3..]);
      JoinsCuts(s[0], s[1], s[2]);
      FourRead(CutA(s[0]), CutB(s[0], s[1]), CutC(s[1], s[2]), CutD(s[2]), Encode64(s[3..]));
      assert s == [s[0], s[1], s[2]] + s[3..];
    }
  }

  // ---------------------------------------------------------------- numbers

  function Scale(k: nat): nat {
    if k == 0 then 1 else 256 * Scale(k - 1)
  }

  /** The last `k` base-256 digits, most significant first. */
  function BigEndian(n: nat, k: nat): (r: seq<Byte>)
    ensures |r| == k
  {
    if k == 0 then [] else BigEndian(n / 256, k - 1) + [n % 256]
  }

  function FromBigEndian(s: seq<Byte>): nat {
    if s == [] then 0 else FromBigEndian(s[..|s| - 1]) * 256 + s[|s| - 1]
  }

  lemma {:induction false} BigEndianReads(n: nat, k: nat)
    requires n < Scale(k)
    ensures FromBigEndian(BigEndian(n, k)) == n
    decreases k
  {
    if k > 0 {
      BigEndianReads(n / 256, k - 1);
      assert (BigEndian(n / 256, k - 1) + [n % 256])[..k - 1] == BigEndian(n / 256, k - 1);
    }
  }

  lemma {:induction false} BigEndianWrites(s: seq<Byte>)
    ensures FromBigEndian(s) < Scale(|s|) && BigEndian(FromBigEndian(s), |s|) == s
  {
    if s != [] {
      BigEndianWrites(s[..|s| - 1]);
      assert s == s[..|s| - 1] + [s[|s| - 1]];
    }
  }

  // ---------------------------------------------------------------- cursors

  function EncodeCursor(offset: nat, mark: seq<Byte>): Result<string, CursorError>
    requires |mark| == FINGERPRINT_BYTES
  {
    if offset >= Scale(OFFSET_BYTES) then Err(OffsetTooLarge)
    else Ok(PREFIX + Encode64(BigEndian(offset, OFFSET_BYTES) + mark))
  }

  /** Accepts only text that encodes back to itself. */
  function DecodeCursor(text: string): Result<(nat, seq<Byte>), CursorError> {
    if !(PREFIX <= text) then Err(PaginationConflict)
    else
      var decoded := Decode64(text[|PREFIX|..]);
      if decoded.None? || |decoded.value| != OFFSET_BYTES + FINGERPRINT_BYTES then Err(PaginationConflict)
      else
        var offset := FromBigEndian(decoded.value[..OFFSET_BYTES]);
        var mark := decoded.value[OFFSET_BYTES..];
        if EncodeCursor(offset, mark) != Ok(text) then Err(PaginationConflict) else Ok((offset, mark))
  }

  /** Over all texts: one decodes to an offset and fingerprint exactly when it is what they encode to.  So
      every cursor written is read back, and nothing else is accepted. */
  lemma CursorRoundTrip(text: string, offset: nat, mark: seq<Byte>)
    requires |mark| == FINGERPRINT_BYTES
    ensures DecodeCursor(text) == Ok((offset, mark)) <==> EncodeCursor(offset, mark) == Ok(text)
  {
    hide Encode64, Decode64;
    if EncodeCursor(offset, mark) == Ok(text) {
      var bytes := BigEndian(offset, OFFSET_BYTES) + mark;
      assert text[|PREFIX|..] == Encode64(bytes);
      DecodeEncoded(bytes);
      BigEndianReads(offset, OFFSET_BYTES);
      assert bytes[..OFFSET_BYTES] == BigEndian(offset, OFFSET_BYTES) && bytes[OFFSET_BYTES..] == mark;
    }
  }

  /** Of all texts that read as the same bytes, and so differ only in spare bits, just the one with zeros is
      accepted, although this decoder does not mind them. */
  lemma SpareBitsRefused(bytes: seq<Byte>, text: string)
    requires |bytes| == OFFSET_BYTES + FINGERPRINT_BYTES && Decode64(text) == Some(bytes)
    ensures DecodeCursor(PREFIX + text).Ok? <==> text == Encode64(bytes)
  {
    hide Encode64, Decode64;
    var offset := FromBigEndian(bytes[..OFFSET_BYTES]);
    BigEndianWrites(bytes[..OFFSET_BYTES]);
    assert (PREFIX + text)[|PREFIX|..] == text && PREFIX <= PREFIX + text;
    assert bytes == bytes[..OFFSET_BYTES] + bytes[OFFSET_BYTES..];
    assert (PREFIX + Encode64(bytes))[|PREFIX|..] == Encode64(bytes);
  }
}
