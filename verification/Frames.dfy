/** The header of an unmasked WebSocket text frame, as section 5.2 of RFC 6455 lays it out. */
module Frames {
  import opened Basics
  import opened Cycle

  newtype Byte = b: int | 0 <= b < 256

  /** Final fragment, text opcode. */
  const TEXT: Byte := 0x81

  /** The low byte of a shifted length. */
  function ByteAt(length: nat, shift: nat): Byte
    requires shift > 0
  {
    ((length / shift) % 256) as Byte
  }

  method WriteHeader(length: nat) returns (header: seq<Byte>)
    requires length < 0x8000_0000_0000_0000
    ensures header == Header(length)
    ensures forall payload: seq<Byte> :: |payload| == length ==> ReadFrame(header + payload) == Some(payload)
  {
    header := [TEXT];
    if length < 126 {
      header := header + [length as Byte];
    } else if length <= 0xFFFF {
      header := header + [126, ByteAt(length, 0x100), ByteAt(length, 1)];
    } else {
      header := header + [127,
        ByteAt(length, 0x100_0000_0000_0000), ByteAt(length, 0x1_0000_0000_0000), ByteAt(length, 0x100_0000_0000),
        ByteAt(length, 0x1_0000_0000), ByteAt(length, 0x100_0000), ByteAt(length, 0x1_0000), ByteAt(length, 0x100),
        ByteAt(length, 1)];
    }
    ShiftsAreDigits(length);
    assert header == Header(length);
    forall payload: seq<Byte> | |payload| == length
      ensures ReadFrame(header + payload) == Some(payload)
    {
      FrameRoundTrip(payload);
    }
  }

  /** Big-endian digits of a length. */
  function Digits(n: nat, k: nat): (bytes: seq<Byte>)
    ensures |bytes| == k
  {
    if k == 0 then [] else Digits(n / 256, k - 1) + [(n % 256) as Byte]
  }

  function Header(length: nat): seq<Byte> {
    if length < 126 then [TEXT, length as Byte]
    else if length <= 0xFFFF then [TEXT, 126] + Digits(length, 2)
    else [TEXT, 127] + Digits(length, 8)
  }

  function Number(bytes: seq<Byte>): nat {
    if bytes == [] then 0 else Number(bytes[..|bytes| - 1]) * 256 + bytes[|bytes| - 1] as nat
  }

  /** A receiver of one unmasked text frame: the length field must be of the shortest form, the
      64-bit form must leave its top bit clear, and the payload must have the announced length. */
  function ReadFrame(frame: seq<Byte>): Option<seq<Byte>> {
    if |frame| < 2 || frame[0] != TEXT then None
    else if frame[1] < 126 then Payload(frame[2..], frame[1] as nat)
    else if frame[1] == 126 then
      if |frame| < 4 || Number(frame[2..4]) < 126 then None else Payload(frame[4..], Number(frame[2..4]))
    else if frame[1] == 127 then
      if |frame| < 10 || frame[2] >= 128 || Number(frame[2..10]) <= 0xFFFF then None
      else Payload(frame[10..], Number(frame[2..10]))
    else None
  }

  function Payload(rest: seq<Byte>, length: nat): Option<seq<Byte>> {
    if |rest| == length then Some(rest) else None
  }

  function Power(k: nat): nat {
    if k == 0 then 1 else 256 * Power(k - 1)
  }

  lemma {:induction false} DigitsRead(n: nat, k: nat)
    requires n < Power(k)
    ensures Number(Digits(n, k)) == n
  {
    if k > 0 {
      DigitsRead(n / 256, k - 1);
      var bytes := Digits(n, k);
      assert bytes[..k - 1] == Digits(n / 256, k - 1);
    }
  }

  lemma {:induction false} FirstDigit(n: nat, k: nat)
    requires k > 0 && n < 128 * Power(k - 1)
    ensures Digits(n, k)[0] < 128
  {
    if k > 1 {
      FirstDigit(n / 256, k - 1);
    }
  }

  /** Reading undoes writing, for every payload. */
  lemma FrameRoundTrip(payload: seq<Byte>)
    requires |payload| < 0x8000_0000_0000_0000
    ensures ReadFrame(Header(|payload|) + payload) == Some(payload)
  {
    var n := |payload|;
    var frame := Header(n) + payload;
    EightBytes();
    if n < 126 {
      assert frame[2..] == payload;
    } else if n <= 0xFFFF {
      DigitsRead(n, 2);
      assert frame[2..4] == Digits(n, 2) && frame[4..] == payload;
    } else {
      DigitsRead(n, 8);
      FirstDigit(n, 8);
      assert frame[2..10] == Digits(n, 8) && frame[10..] == payload;
      assert frame[2] == Digits(n, 8)[0];
    }
  }

  lemma {:induction false} NumberDigits(bytes: seq<Byte>)
    ensures Digits(Number(bytes), |bytes|) == bytes && Number(bytes) < Power(|bytes|)
  {
    if bytes != [] {
      var n := |bytes| - 1;
      NumberDigits(bytes[..n]);
      assert Number(bytes) / 256 == Number(bytes[..n]);
    }
  }

  lemma {:induction false} TopBitClear(bytes: seq<Byte>)
    requires bytes != [] && bytes[0] < 128
    ensures Number(bytes) < 128 * Power(|bytes| - 1)
  {
    if |bytes| > 1 {
      TopBitClear(bytes[..|bytes| - 1]);
    } else {
      assert Number(bytes[..0]) == 0;
    }
  }

  lemma EightBytes()
    ensures Power(2) == 0x1_0000 && Power(7) == 0x100_0000_0000_0000 && Power(8) == 0x1_0000_0000_0000_0000
  {
    assert Power(4) == 0x1_0000_0000;
    assert Power(6) == 0x1_0000_0000_0000;
  }

  /** The frames a receiver takes are exactly those that are written. */
  lemma ReadIffWritten(frame: seq<Byte>, payload: seq<Byte>)
    ensures ReadFrame(frame) == Some(payload) <==>
              |payload| < 0x8000_0000_0000_0000 && frame == Header(|payload|) + payload
  {
    if |payload| < 0x8000_0000_0000_0000 && frame == Header(|payload|) + payload {
      FrameRoundTrip(payload);
    } else if ReadFrame(frame) == Some(payload) {
      WrittenIfRead(frame, payload);
    }
  }

  lemma WrittenIfRead(frame: seq<Byte>, payload: seq<Byte>)
    requires ReadFrame(frame) == Some(payload)
    ensures |payload| < 0x8000_0000_0000_0000 && frame == Header(|payload|) + payload
  {
    EightBytes();
    hide Digits, Number, Power;
    if frame[1] < 126 {
      assert frame == [TEXT, frame[1]] + frame[2..];
    } else if frame[1] == 126 {
      NumberDigits(frame[2..4]);
      assert frame == [TEXT, 126] + frame[2..4] + frame[4..];
    } else {
      NumberDigits(frame[2..10]);
      TopBitClear(frame[2..10]);
      assert frame == [TEXT, 127] + frame[2..10] + frame[10..];
    }
  }

  /** Two payloads with the same frame are the same payload. */
  lemma FramesAreUnambiguous(p: seq<Byte>, q: seq<Byte>)
    requires |p| < 0x8000_0000_0000_0000 && |q| < 0x8000_0000_0000_0000
    requires Header(|p|) + p == Header(|q|) + q
    ensures p == q
  {
    FrameRoundTrip(p);
    FrameRoundTrip(q);
  }

  lemma Distribute(q: int, r: int, s: int)
    ensures (q * 256 + r) * s == q * (256 * s) + r * s
  {
  }

  /** Shifting by eight more bits is dividing once more. */
  lemma ShiftByte(n: nat, s: nat)
    requires s > 0
    ensures (n / s) / 256 == n / (256 * s)
  {
    var q, r := (n / s) / 256, (n / s) % 256;
    DivisionLaw(n, s);
    Distribute(q, r, s);
    MulMonotone(0, r, s);
    MulMonotone(r, 255, s);
    DivisionLaw(n, 256 * s);
    DivisionIsUnique(256 * s, n / (256 * s), n % (256 * s), q, r * s + n % s);
  }

  lemma LowDigit(n: nat, s: nat, q: nat, k: nat)
    requires s > 0 && (n / s) / 256 == q
    ensures Digits(n / s, k + 1) == Digits(q, k) + [ByteAt(n, s)]
  {
    hide Digits, ByteAt;
    LastDigit(n / s, q, k);
    ByteIs(n, s, n / s);
  }

  lemma LastDigit(n: nat, q: nat, k: nat)
    requires n / 256 == q
    ensures Digits(n, k + 1) == Digits(q, k) + [(n % 256) as Byte]
  {
  }

  lemma ByteIs(n: nat, s: nat, q: nat)
    requires s > 0 && n / s == q
    ensures ByteAt(n, s) == (q % 256) as Byte
  {
  }

  lemma ShiftsAreDigits(n: nat)
    ensures Digits(n, 2) == [ByteAt(n, 0x100), ByteAt(n, 1)]
    ensures Digits(n, 8) == [
        ByteAt(n, 0x100_0000_0000_0000), ByteAt(n, 0x1_0000_0000_0000), ByteAt(n, 0x100_0000_0000),
        ByteAt(n, 0x1_0000_0000), ByteAt(n, 0x100_0000), ByteAt(n, 0x1_0000), ByteAt(n, 0x100), ByteAt(n, 1)]
  {
    NoDigits(n / 0x1_0000);
    NoDigits(n / 0x1_0000_0000_0000_0000);
    hide Digits, ByteAt;
    ShiftByte(n, 0x100);
    LowDigit(n, 0x100, n / 0x1_0000, 0);
    ShiftByte(n, 1);
    LowDigit(n, 1, n / 0x100, 1);
    ShiftByte(n, 0x100_0000_0000_0000);
    LowDigit(n, 0x100_0000_0000_0000, n / 0x1_0000_0000_0000_0000, 0);
    ShiftByte(n, 0x1_0000_0000_0000);
    LowDigit(n, 0x1_0000_0000_0000, n / 0x100_0000_0000_0000, 1);
    ShiftByte(n, 0x100_0000_0000);
    LowDigit(n, 0x100_0000_0000, n / 0x1_0000_0000_0000, 2);
    ShiftByte(n, 0x1_0000_0000);
    LowDigit(n, 0x1_0000_0000, n / 0x100_0000_0000, 3);
    ShiftByte(n, 0x100_0000);
    LowDigit(n, 0x100_0000, n / 0x1_0000_0000, 4);
    ShiftByte(n, 0x1_0000);
    LowDigit(n, 0x1_0000, n / 0x100_0000, 5);
    ShiftByte(n, 0x100);
    LowDigit(n, 0x100, n / 0x1_0000, 6);
    ShiftByte(n, 1);
    LowDigit(n, 1, n / 0x100, 7);
    assert n / 1 == n;
  }

  lemma NoDigits(n: nat)
    ensures Digits(n, 0) == []
  {
  }
}
