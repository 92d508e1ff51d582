/**
 * The text form of a message: usb_box_sprintf_message writes the 8 bytes
 * with the printf pattern 0x%X separated by commas, and usb_box_sscanf_message
 * reads them back with the scanf pattern 0x%2X separated by commas.
 */
module Codec {
  import opened UsbBox

  /** A hexadecimal digit as scanf's %X accepts it: either case. */
  predicate IsHexDigit(c: char)
  {
    '0' <= c <= '9' || 'a' <= c <= 'f' || 'A' <= c <= 'F'
  }

  /** A hexadecimal digit as printf's %X writes it: upper case. */
  predicate IsUpperHexDigit(c: char)
  {
    '0' <= c <= '9' || 'A' <= c <= 'F'
  }

  function HexValue(c: char): (v: nat)
    requires IsHexDigit(c)
    ensures v < 16
  {
    if '0' <= c <= '9' then c as int - '0' as int
    else if 'a' <= c <= 'f' then c as int - 'a' as int + 10
    else c as int - 'A' as int + 10
  }

  /** The upper-case digit printf uses for d. */
  function HexDigit(d: nat): (c: char)
    requires d < 16
    ensures IsUpperHexDigit(c) && IsHexDigit(c) && HexValue(c) == d
  {
    if d < 10 then ('0' as int + d) as char else ('A' as int + d - 10) as char
  }

  /** The value of one or two hex digits, as %2X converts them. */
  function FieldValue(digits: string): byte
    requires 1 <= |digits| <= 2
    requires forall i :: 0 <= i < |digits| ==> IsHexDigit(digits[i])
  {
    if |digits| == 1 then HexValue(digits[0]) as byte
    else (HexValue(digits[0]) * 16 + HexValue(digits[1])) as byte
  }

  /** %X applied to a byte: upper case, no leading zero, so one digit below 0x10. */
  function HexOf(b: byte): (s: string)
    ensures 1 <= |s| <= 2 && (|s| == 1 <==> b < 16)
    ensures forall i :: 0 <= i < |s| ==> IsUpperHexDigit(s[i]) && IsHexDigit(s[i])
    ensures FieldValue(s) == b
  {
    if b < 16 then [HexDigit(b as nat)]
    else [HexDigit((b / 16) as nat), HexDigit((b % 16) as nat)]
  }

  /** One printed field: 0x%X. */
  function Field(b: byte): string
  {
    "0x" + HexOf(b)
  }

  /** The fields of bs joined by commas. */
  function FormatFields(bs: seq<byte>): string
  {
    if |bs| == 0 then ""
    else if |bs| == 1 then Field(bs[0])
    else Field(bs[0]) + "," + FormatFields(bs[1..])
  }

  /**
   * usb_box_sprintf_message: the text written into str and sprintf's return
   * value, the number of characters written (31 to 39 for 8 bytes).
   */
  function SprintfMessage(m: Message): (r: (string, int))
    ensures r.1 == |r.0| && 4 * MessageSize - 1 <= r.1 <= 5 * MessageSize - 1
  {
    FormatLength(m);
    var s := FormatFields(m);
    (s, |s|)
  }

  /** Each field takes 3 or 4 characters, with a comma between fields. */
  lemma {:induction false} FormatLength(bs: seq<byte>)
    requires 1 <= |bs|
    ensures 4 * |bs| - 1 <= |FormatFields(bs)| <= 5 * |bs| - 1
  {
    if |bs| > 1 {
      FormatLength(bs[1..]);
    }
  }

  /**
   * The values sscanf converts from s with k remaining "0x%2X" directives,
   * each after the first preceded by a ',' in the pattern. Conversion stops at
   * the first character that does not match; the count of converted fields
   * is the length of the result.
   */
  function ScanFields(s: string, k: nat): (vs: seq<byte>)
    ensures |vs| <= k
    decreases k
  {
    if k == 0 || |s| < 3 || s[0] != '0' || s[1] != 'x' || !IsHexDigit(s[2]) then []
    else
      var w := if |s| >= 4 && IsHexDigit(s[3]) then 2 else 1;
      var v := FieldValue(s[2 .. 2 + w]);
      var rest := s[2 + w ..];
      if k > 1 && |rest| > 0 && rest[0] == ',' then [v] + ScanFields(rest[1..], k - 1)
      else [v]
  }

  /** Scanning the formatted fields of bs with |bs| directives gives back bs. */
  lemma {:induction false} ScanFormatted(bs: seq<byte>)
    requires 1 <= |bs|
    ensures ScanFields(FormatFields(bs), |bs|) == bs
  {
    var h := HexOf(bs[0]);
    var tail := if |bs| == 1 then "" else "," + FormatFields(bs[1..]);
    var s := FormatFields(bs);
    assert s == "0x" + h + tail;
    assert s[0] == '0' && s[1] == 'x' && s[2] == h[0];
    var w := if |s| >= 4 && IsHexDigit(s[3]) then 2 else 1;
    if |h| == 2 {
      assert s[3] == h[1];
    } else if |s| >= 4 {
      assert s[3] == ',';
    }
    assert w == |h|;
    assert s[2 .. 2 + w] == h;
    assert s[2 + w ..] == tail;
    if |bs| > 1 {
      assert tail[1..] == FormatFields(bs[1..]);
      ScanFormatted(bs[1..]);
      assert bs == [bs[0]] + bs[1..];
    }
  }

  /**
   * The round trip promised for the pair: sscanf of what sprintf wrote
   * converts all 8 fields and yields the original bytes.
   */
  lemma SprintfSscanfRoundTrip(m: Message)
    ensures |ScanFields(SprintfMessage(m).0, MessageSize)| == MessageSize
    ensures ScanFields(SprintfMessage(m).0, MessageSize) == m
  {
    ScanFormatted(m);
  }

  /**
   * The string ends before sscanf completes its first conversion: it is a
   * proper prefix of "0x" followed by a digit, so the literal match or the
   * first %2X meets the end of input (an input failure, reported as EOF).
   */
  predicate EndsBeforeFirstField(s: string)
  {
    |s| <= 2 && s == "0x"[.. |s|]
  }

  /** sscanf's EOF (-1) is only returned where no field could have been converted. */
  lemma EofConvertsNothing(s: string, k: nat)
    requires EndsBeforeFirstField(s)
    ensures ScanFields(s, k) == []
  {
  }

  /**
   * usb_box_sscanf_message: scans s into the local int array `bytes`, then
   * copies all 8 entries into *msg_ptr. Entries sscanf did not convert keep
   * whatever the uninitialised local held, given here as `uninitialised`.
   * Returns sscanf's result: EOF (-1) when the input ends before the first
   * conversion, otherwise the count of converted fields.
   */
  method SscanfMessage(s: string, msg: array<byte>, uninitialised: Message) returns (res: int)
    requires msg.Length == MessageSize
    modifies msg
    ensures -1 <= res <= MessageSize
    ensures res == -1 <==> EndsBeforeFirstField(s)
    ensures res != -1 ==> res == |ScanFields(s, MessageSize)|
    ensures msg[.. |ScanFields(s, MessageSize)|] == ScanFields(s, MessageSize)
    ensures msg[|ScanFields(s, MessageSize)| ..] == uninitialised[|ScanFields(s, MessageSize)| ..]
  {
    var parsed := ScanFields(s, MessageSize);
    var count := |parsed|;
    res := if EndsBeforeFirstField(s) then -1 else count;
    var bytes := parsed + uninitialised[count ..];
    assert |bytes| == MessageSize;
    var i := 0;
    while i < MessageSize
      invariant 0 <= i <= MessageSize
      invariant forall j :: 0 <= j < i ==> msg[j] == bytes[j]
    {
      msg[i] := bytes[i];
      i := i + 1;
    }
    assert msg[..] == bytes;
    assert msg[.. count] == bytes[.. count] == parsed;
  }
}
