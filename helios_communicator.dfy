/**
 * The Modbus TCP side of the binding. A variable is written by sending its command and
 * value ("vNNNNN=value") as the registers of a write-multiple-registers request. It is
 * read by sending its command the same way, then reading count registers back and
 * taking the text after '='. The device and the TCP connection are an oracle here: a
 * Transport that records every request and answers from a script.
 */
module HeliosCommunicator {
  import opened Wrappers
  import opened Bytes
  import opened JavaText
  import opened HeliosVariable
  import opened HeliosVariableMap

  const DEFAULT_PORT: int32 := 502
  const DEFAULT_UNIT: int32 := 180
  const DEFAULT_START_ADDRESS: int32 := 1

  const INT_MIN: int := -0x8000_0000
  const INT_MAX: int := 0x7FFF_FFFF
  const LONG_MIN: int := -0x8000_0000_0000_0000
  const LONG_MAX: int := 0x7FFF_FFFF_FFFF_FFFF

  // ------------------------------------------------------------------ preparePayload

  /**
   * The number of registers preparePayload allocates for a payload of len characters:
   * the fewest registers whose bytes hold the payload and at least one zero byte after it.
   */
  function RegisterCount(len: nat): (l: nat)
    ensures len + 1 <= 2 * l <= len + 2
  {
    var l := (len + 1) / 2;
    if (len + 1) % 2 != 0 then l + 1 else l
  }

  /** Byte ch of the payload, or the zero terminator once ch runs past its end. */
  function PayloadByte(b: seq<byte>, ch: nat): byte
  {
    if ch < |b| then b[ch] else 0
  }

  /** l registers holding the bytes of b two to a register, high byte first, padded with zero bytes. */
  function Pack(b: seq<byte>, l: nat): (regs: seq<u16>)
    ensures |regs| == l
  {
    seq(l, i requires 0 <= i < l => MakeRegister(PayloadByte(b, 2 * i), PayloadByte(b, 2 * i + 1)))
  }

  /**
   * `String.length()`: the number of UTF-16 code units, so a character outside the Basic
   * Multilingual Plane (a surrogate pair in Java) counts twice.
   */
  function JavaLength(s: string): (n: nat)
    ensures |s| <= n <= 2 * |s|
    ensures (forall i :: 0 <= i < |s| ==> s[i] as int < 0x1_0000) ==> n == |s|
  {
    if s == [] then 0
    else
      var init, last := s[..|s| - 1], s[|s| - 1];
      assert forall i :: 0 <= i < |init| ==> init[i] == s[i];
      JavaLength(init) + (if last as int < 0x1_0000 then 1 else 2)
  }

  /** A character outside the Basic Multilingual Plane is two chars to Java, one byte '?' to the encoder. */
  lemma JavaLengthExample()
    ensures JavaLength("a\U{1F600}") == 3 && |GetBytes("a\U{1F600}")| == 2
  {
    assert "a\U{1F600}"[..1] == "a";
  }

  /**
   * The registers preparePayload makes of a payload text: as many as its Java length
   * calls for, holding its bytes (one per character, as the encoder writes them).
   */
  function PreparedPayload(payload: string): (regs: seq<u16>)
    ensures |regs| == RegisterCount(JavaLength(payload))
  {
    Pack(GetBytes(payload), RegisterCount(JavaLength(payload)))
  }

  /** The bytes of registers in wire order: each register's high byte, then its low byte (`toBytes`). */
  function Flatten(regs: seq<u16>): (b: seq<byte>)
    ensures |b| == 2 * |regs|
  {
    seq(2 * |regs|, j requires 0 <= j < 2 * |regs| =>
      if j % 2 == 0 then HighByte(regs[j / 2]) else LowByte(regs[j / 2]))
  }

  /** On the wire, packed registers carry the payload's bytes and then only zero bytes. */
  lemma PackedBytes(b: seq<byte>, l: nat)
    requires |b| <= 2 * l
    ensures Flatten(Pack(b, l)) == b + Repeat(0, 2 * l - |b|)
  {
    var regs, z := Pack(b, l), Repeat(0 as byte, 2 * l - |b|);
    var f := Flatten(regs);
    forall j | 0 <= j < 2 * l
      ensures f[j] == (b + z)[j]
    {
      var i := j / 2;
      assert regs[i] == MakeRegister(PayloadByte(b, 2 * i), PayloadByte(b, 2 * i + 1));
      if j % 2 == 0 {
        assert j == 2 * i;
      } else {
        assert j == 2 * i + 1;
      }
    }
  }

  /**
   * preparePayload: the payload's bytes two to a register, high byte first, in
   * RegisterCount(JavaLength(payload)) registers, the bytes after the payload zero.
   */
  method PreparePayload(payload: string) returns (reg: array<u16>)
    ensures fresh(reg)
    ensures reg[..] == PreparedPayload(payload)
  {
    var length := JavaLength(payload);
    var l := (length + 1) / 2;
    if (length + 1) % 2 != 0 {
      l := l + 1;
    }
    reg := new u16[l];
    var b := GetBytes(payload);
    var ch := 0;
    for i := 0 to reg.Length
      invariant ch == 2 * i
      invariant forall k | 0 <= k < i :: reg[k] == Pack(b, l)[k]
    {
      var b1: byte := if ch < |b| then b[ch] else 0;
      ch := ch + 1;
      var b2: byte := if ch < |b| then b[ch] else 0;
      ch := ch + 1;
      reg[i] := MakeRegister(b1, b2);
    }
  }

  /** Payloads of 6, 7 and 8 characters take 4, 4 and 5 registers. */
  lemma RegisterCountExamples()
    ensures RegisterCount(6) == 4 && RegisterCount(7) == 4 && RegisterCount(8) == 5
  {
  }

  // ------------------------------------------------------------------ decodeResponse

  /** The bytes of b that are not zero, in their order. */
  function NonZero(b: seq<byte>): (r: seq<byte>)
    ensures |r| <= |b|
    ensures forall i :: 0 <= i < |r| ==> r[i] != 0
    ensures forall x :: x != 0 ==> multiset(r)[x] == multiset(b)[x]
  {
    if b == [] then []
    else
      var init, last := b[..|b| - 1], b[|b| - 1];
      assert b == init + [last];
      NonZero(init) + (if last != 0 then [last] else [])
  }

  /** Dropping zero bytes works piece by piece: it commutes with concatenation. */
  lemma {:induction false} NonZeroAppend(a: seq<byte>, c: seq<byte>)
    ensures NonZero(a + c) == NonZero(a) + NonZero(c)
    decreases |c|
  {
    if c == [] {
      assert a + c == a;
    } else {
      var init := c[..|c| - 1];
      assert (a + c)[..|a + c| - 1] == a + init;
      NonZeroAppend(a, init);
    }
  }

  /** Bytes with no zero among them are kept as they are. */
  lemma {:induction false} NonZeroKeeps(b: seq<byte>)
    requires forall i :: 0 <= i < |b| ==> b[i] != 0
    ensures NonZero(b) == b
  {
    if b != [] {
      NonZeroKeeps(b[..|b| - 1]);
    }
  }

  /** Zero bytes alone leave nothing. */
  lemma {:induction false} NonZeroOfZeros(n: nat)
    ensures NonZero(Repeat(0, n)) == []
  {
    if n > 0 {
      assert Repeat(0 as byte, n) == Repeat(0, n - 1) + [0] by {
        RepeatSnoc(n);
      }
      NonZeroOfZeros(n - 1);
    }
  }

  lemma RepeatSnoc(n: nat)
    requires n > 0
    ensures Repeat(0 as byte, n) == Repeat(0, n - 1) + [0]
  {
  }

  /** The wire bytes of one more register: those of the registers before it, then its own two. */
  lemma FlattenSnoc(regs: seq<u16>, i: nat)
    requires i < |regs|
    ensures Flatten(regs[..i + 1]) == Flatten(regs[..i]) + [HighByte(regs[i]), LowByte(regs[i])]
  {
    var a, b := Flatten(regs[..i + 1]), Flatten(regs[..i]) + [HighByte(regs[i]), LowByte(regs[i])];
    forall j | 0 <= j < 2 * i + 2
      ensures a[j] == b[j]
    {
      if j < 2 * i {
        assert j / 2 < i;
      } else {
        assert j / 2 == i;
      }
    }
  }

  /** A byte kept by decodeResponse, none for a zero byte. */
  function Kept(x: byte): (r: seq<byte>)
    ensures r == NonZero([x])
  {
    if x != 0 then [x] else []
  }

  /** The non-zero wire bytes of one more register: those before it, then its own. */
  lemma CollectStep(response: seq<u16>, i: nat)
    requires i < |response|
    ensures NonZero(Flatten(response[..i + 1]))
      == NonZero(Flatten(response[..i])) + Kept(HighByte(response[i])) + Kept(LowByte(response[i]))
  {
    hide NonZero, Flatten;
    var hi, lo := HighByte(response[i]), LowByte(response[i]);
    var before := Flatten(response[..i]);
    FlattenSnoc(response, i);
    NonZeroAppend(before, [hi, lo]);
    NonZeroAppend([hi], [lo]);
    assert [hi] + [lo] == [hi, lo];
    assert Kept(hi) == NonZero([hi]) && Kept(lo) == NonZero([lo]);
    assert NonZero(before) + (Kept(hi) + Kept(lo)) == NonZero(before) + Kept(hi) + Kept(lo);
  }

  /**
   * What decodeResponse makes of the reply text: `split("=")`, then the second part when
   * there are exactly two, None (Java's null) otherwise.
   */
  function DecodeValue(text: string): (r: Option<string>)
    ensures r.Some? ==> '=' in text && '=' !in r.value && r.value != ""
  {
    var parts := Split(text, '=');
    if |parts| == 2 then Some(parts[1]) else None
  }

  /** The value decodeResponse finds in a reply's registers. */
  function DecodedValue(response: seq<u16>): Option<string>
  {
    DecodeValue(NewString(NonZero(Flatten(response))))
  }

  /**
   * decodeResponse: collects the non-zero bytes of the registers in a buffer, cuts it to
   * the bytes collected, makes text of them and splits it at '='.
   */
  method DecodeResponse(response: seq<u16>) returns (r: Option<string>)
    ensures r == DecodedValue(response)
  {
    hide NonZero, Flatten, Split;
    var b := new byte[|response| * 2];
    var actSize := 0;
    for i := 0 to |response|
      invariant actSize <= 2 * i
      invariant b[..actSize] == NonZero(Flatten(response[..i]))
    {
      var hi, lo := HighByte(response[i]), LowByte(response[i]);
      CollectStep(response, i);
      ghost var before := b[..actSize];
      if hi != 0 {
        b[actSize] := hi;
        actSize := actSize + 1;
      }
      assert b[..actSize] == before + Kept(hi);
      if lo != 0 {
        b[actSize] := lo;
        actSize := actSize + 1;
      }
    }
    assert response[..|response|] == response;
    var text := NewString(b[..actSize]);
    var parts := Split(text, '=');
    if |parts| == 2 {
      r := Some(parts[1]);
    } else {
      r := None;
    }
  }

  /** A text that is p, '=', the value and any number of further '=' decodes to the value. */
  lemma DecodeValueOf(p: string, x: string, m: nat)
    requires '=' !in p && '=' !in x && x != ""
    ensures DecodeValue(p + "=" + x + Repeat('=', m)) == Some(x)
  {
    hide Pieces, IndexOf, DropTrailingEmpty;
    var rest := x + Repeat('=', m);
    var t := p + "=" + x + Repeat('=', m);
    assert t == p + ['='] + rest;
    assert t[|p|] == '=';
    PiecesAppend(p, rest, '=');
    PiecesWithout(p, '=');
    TailPieces(x, m);
    assert Pieces(t, '=') == [p, x] + Repeat("", m);
    DropEmptyTail([p, x], m);
  }

  /** A text without the separator is one piece. */
  lemma PiecesWithout(s: string, sep: char)
    requires sep !in s
    ensures Pieces(s, sep) == [s]
  {
  }

  /** A piece followed by m separators: the piece, then m empty pieces. */
  lemma TailPieces(x: string, m: nat)
    requires '=' !in x
    ensures Pieces(x + Repeat('=', m), '=') == [x] + Repeat("", m)
  {
    hide Pieces, IndexOf;
    PiecesWithout(x, '=');
    if m == 0 {
      assert x + Repeat('=', m) == x;
      assert [x] + Repeat("", m) == [x];
    } else {
      assert x + Repeat('=', m) == x + ['='] + Repeat('=', m - 1) by {
        assert Repeat('=', m) == ['='] + Repeat('=', m - 1);
      }
      PiecesAppend(x, Repeat('=', m - 1), '=');
      PiecesOfSeparators(m - 1, '=');
    }
  }

  /** Empty parts appended after a non-empty last part are all dropped again. */
  lemma {:induction false} DropEmptyTail(parts: seq<string>, m: nat)
    requires |parts| > 0 && parts[|parts| - 1] != ""
    ensures DropTrailingEmpty(parts + Repeat("", m)) == parts
  {
    if m > 0 {
      var s := parts + Repeat("", m);
      assert s[..|s| - 1] == parts + Repeat("", m - 1) by {
        assert Repeat("", m) == Repeat("", m - 1) + [""] by {
          RepeatEmptySnoc(m);
        }
      }
      DropEmptyTail(parts, m - 1);
    } else {
      assert parts + Repeat("", m) == parts;
    }
  }

  lemma RepeatEmptySnoc(m: nat)
    requires m > 0
    ensures Repeat("", m) == Repeat("", m - 1) + [""]
  {
  }

  /**
   * Conversely, a text decodes to a value x only if it is a prefix without '=', one '=',
   * then x, then nothing but '='.
   */
  lemma DecodeValueForm(t: string)
    requires DecodeValue(t).Some?
    ensures var x, p := DecodeValue(t).value, Split(t, '=')[0];
      '=' !in p && |p| + 1 + |x| <= |t| && t == p + "=" + x + Repeat('=', |t| - |p| - 1 - |x|)
  {
    var parts := Split(t, '=');
    var p, x := parts[0], parts[1];
    var all := Pieces(t, '=');
    var m := |all| - 2;
    assert all == [p, x] + Repeat("", m);
    JoinPieces(t, '=');
    assert ([p, x] + Repeat("", m))[1..] == [x] + Repeat("", m);
    JoinEmptyTail(x, m, '=');
    assert t == p + "=" + x + Repeat('=', m);
  }

  /** A text with no '=' has no value: decodeResponse returns null. */
  lemma DecodeValueWithoutSeparator(t: string)
    requires '=' !in t
    ensures DecodeValue(t) == None
  {
  }

  /** A command followed by '=' and nothing else has no value either. */
  lemma DecodeValueEmpty(p: string, m: nat)
    requires '=' !in p && m > 0
    ensures DecodeValue(p + Repeat('=', m)) == None
  {
    hide Pieces, IndexOf, DropTrailingEmpty;
    var t := p + Repeat('=', m);
    assert t[|p|] == '=';
    TailPieces(p, m);
    if p == "" {
      assert [p] + Repeat("", m) == Repeat("", m + 1);
      DropAllEmpty(m + 1);
    } else {
      DropEmptyTail([p], m);
    }
  }

  /** Parts that are all empty are all dropped. */
  lemma {:induction false} DropAllEmpty(n: nat)
    ensures DropTrailingEmpty(Repeat("", n)) == []
  {
    if n > 0 {
      RepeatEmptySnoc(n);
      DropAllEmpty(n - 1);
    }
  }

  /** Reply texts as the device may send them, and what decodeResponse returns for each. */
  lemma DecodeValueExamples()
    ensures DecodeValue("v00020=75") == Some("75")
    ensures DecodeValue("v00020") == None
    ensures DecodeValue("v00020=") == None
    ensures DecodeValue("a=b=") == Some("b")
  {
    DecodeValueOf("v00020", "75", 0);
    assert "v00020" + "=" + "75" + Repeat('=', 0) == "v00020=75";
    DecodeValueWithoutSeparator("v00020");
    DecodeValueEmpty("v00020", 1);
    assert "v00020" + Repeat('=', 1) == "v00020=";
    DecodeValueOf("a", "b", 1);
    assert "a" + "=" + "b" + Repeat('=', 1) == "a=b=";
  }

  /**
   * A payload without NUL characters and below 0x80 comes back out of its registers: the
   * padding preparePayload adds is exactly what decodeResponse drops.
   */
  lemma PayloadRoundTrip(payload: string)
    requires IsAscii(payload) && '\0' !in payload
    ensures NewString(NonZero(Flatten(PreparedPayload(payload)))) == payload
  {
    var b := GetBytes(payload);
    PayloadBytes(payload, b, RegisterCount(JavaLength(payload)));
  }

  /** The bytes of a payload text packed into l registers, zero padding dropped, are the text's bytes. */
  lemma PayloadBytes(payload: string, b: seq<byte>, l: nat)
    requires IsAscii(payload) && '\0' !in payload && b == GetBytes(payload)
    requires |payload| <= 2 * l
    ensures NonZero(Flatten(Pack(b, l))) == b
  {
    var n := 2 * l - |b|;
    PackedBytes(b, l);
    NonZeroAppend(b, Repeat(0, n));
    NonZeroOfZeros(n);
    forall i | 0 <= i < |b|
      ensures b[i] != 0
    {
      GetBytesZero(payload, i);
      assert payload[i] in payload;
    }
    NonZeroKeeps(b);
    assert b + [] == b;
  }

  /**
   * A read of a table variable whose reply echoes its command, '=' and a value of at most
   * length characters, zero padded to count registers, gives back the value: count
   * registers leave room for all of it.
   */
  lemma ReplyRoundTrip(v: Variable, value: string)
    requires 0 <= v.variable <= 99999 && ReplyFits(v)
    requires |value| <= v.length
    requires IsAscii(value) && '\0' !in value && '=' !in value && value != ""
    ensures DecodedValue(Pack(GetBytes(VariableString(v) + "=" + value), v.count as nat)) == Some(value)
  {
    var cmd := VariableString(v);
    VariableStringShape(v);
    var text := cmd + "=" + value;
    assert '=' !in cmd by {
      assert cmd == [cmd[0]] + cmd[1..];
      forall i | 0 <= i < |cmd| ensures cmd[i] != '=' {
        if i > 0 { assert IsDigit(cmd[1..][i - 1]); }
      }
    }
    assert IsAscii(text) && '\0' !in text by {
      forall i | 0 <= i < |text| ensures text[i] as int < 0x80 && text[i] != '\0' {
        if i == 0 {
        } else if i < |cmd| {
          assert IsDigit(cmd[1..][i - 1]);
        } else if i > |cmd| {
          assert text[i] == value[i - |cmd| - 1];
        }
      }
    }
    PayloadBytes(text, GetBytes(text), v.count as nat);
    GetBytesAscii(text);
    DecodeValueOf(cmd, value, 0);
    assert text + Repeat('=', 0) == text;
  }

  /** The text of the bytes of an ASCII text is the text itself. */
  lemma GetBytesAscii(s: string)
    requires IsAscii(s)
    ensures NewString(GetBytes(s)) == s
  {
  }

  // ------------------------------------------------------------------ setValue's decisions

  /**
   * The ways a call can fail: an unknown name (Java dereferences null), a read-only
   * variable, a value outside the bounds, a value the bound check cannot parse (the
   * NumberFormatException setValue lets escape), and a failed Modbus transaction.
   */
  datatype HeliosError =
    | UnknownVariable
    | ReadOnly
    | OutOfRange
    | MalformedNumber
    | CommunicationFailure

  /** The variable may be written: its access is W or RW. */
  predicate Writable(v: Variable)
  {
    v.access == ACCESS_W || v.access == ACCESS_RW
  }

  /**
   * setValue's range check for a writable variable: Success(true) when the value may be
   * written, Success(false) when it lies outside the bounds, MalformedNumber when a parse
   * the check makes throws. Integer bounds parse with parseInt; a Long maximum is only
   * compared (with parseLong) when the minimum test passed; Double bounds parse with
   * parseDouble, which the model takes as a parameter.
   */
  function InAllowedRange(v: Variable, value: string, parseDouble: string -> Option<real>): (r: Result<bool, HeliosError>)
    requires WellFormed(v)
    ensures v.minVal.None? ==> r == Success(true)
  {
    match v.minVal
    case None => Success(true)
    case Some(Integer(min)) =>
      (match ParseInteger(value, INT_MIN, INT_MAX)
       case None => Failure(MalformedNumber)
       case Some(x) =>
         var lower := min as int <= x;
         (match v.maxVal
          case Some(Integer(max)) => Success(lower && max as int >= x)
          case Some(Long(max)) =>
            if !lower then Success(false)
            else
              (match ParseInteger(value, LONG_MIN, LONG_MAX)
               case None => Failure(MalformedNumber)
               case Some(y) => Success(max as int >= y))
          case _ => assert false; Success(false)))
    case Some(Double(min)) =>
      (match parseDouble(value)
       case None => Failure(MalformedNumber)
       case Some(d) =>
         (match v.maxVal
          case Some(Double(max)) => Success(min <= d && max >= d)
          case _ => assert false; Success(false)))
    case Some(Long(_)) => Success(false)
  }

  /**
   * What setValue decides before any transaction: the registers of the write to send, or
   * the error it throws. None stands for a name the map does not know.
   */
  function SetDecision(v: Option<Variable>, value: string, parseDouble: string -> Option<real>): (r: Result<seq<u16>, HeliosError>)
    requires v.Some? ==> WellFormed(v.value)
    ensures v.None? ==> r == Failure(UnknownVariable)
    ensures v.Some? && !Writable(v.value) ==> r == Failure(ReadOnly)
    ensures r.Success? ==>
      v.Some? && Writable(v.value) && r.value == PreparedPayload(VariableString(v.value) + "=" + value)
  {
    match v
    case None => Failure(UnknownVariable)
    case Some(w) =>
      if Writable(w) then
        match InAllowedRange(w, value, parseDouble)
        case Failure(e) => Failure(e)
        case Success(ok) =>
          if ok then Success(PreparedPayload(VariableString(w) + "=" + value)) else Failure(OutOfRange)
      else Failure(ReadOnly)
  }

  /** A writable variable without bounds accepts any text, numeric or not. */
  lemma UnboundedAcceptsAll(v: Variable, value: string, parseDouble: string -> Option<real>)
    requires WellFormed(v) && Writable(v) && v.minVal.None?
    ensures SetDecision(Some(v), value, parseDouble).Success?
  {
  }

  /**
   * With Integer bounds a decimal value in the int range is written exactly when it lies
   * between the bounds, both included; otherwise setValue reports it out of range.
   */
  lemma IntegerBoundsInclusive(v: Variable, value: string, parseDouble: string -> Option<real>, x: int)
    requires WellFormed(v) && Writable(v)
    requires v.minVal.Some? && v.minVal.value.Integer? && v.maxVal.Some? && v.maxVal.value.Integer?
    requires ParseInteger(value, INT_MIN, INT_MAX) == Some(x)
    ensures var lo, hi := v.minVal.value.intValue as int, v.maxVal.value.intValue as int;
      SetDecision(Some(v), value, parseDouble).Success? <==> lo <= x <= hi
    ensures SetDecision(Some(v), value, parseDouble).Failure? ==>
      SetDecision(Some(v), value, parseDouble).error == OutOfRange
  {
  }

  /**
   * An Integer minimum with a Long maximum is checked with parseInt first, so a value
   * above the int range is refused as malformed even when it is below the maximum.
   */
  lemma LongMaximumNeedsInt(v: Variable, value: string, parseDouble: string -> Option<real>)
    requires WellFormed(v) && Writable(v)
    requires v.minVal.Some? && v.minVal.value.Integer? && v.maxVal.Some? && v.maxVal.value.Long?
    requires ParseInteger(value, INT_MIN, INT_MAX).None?
    ensures SetDecision(Some(v), value, parseDouble) == Failure(MalformedNumber)
  {
  }

  /**
   * With an Integer minimum and a Long maximum, a value in the int range is written
   * exactly when it is at least the minimum and at most the maximum.
   */
  lemma LongMaximumInclusive(v: Variable, value: string, parseDouble: string -> Option<real>, x: int)
    requires WellFormed(v) && Writable(v)
    requires v.minVal.Some? && v.minVal.value.Integer? && v.maxVal.Some? && v.maxVal.value.Long?
    requires ParseInteger(value, INT_MIN, INT_MAX) == Some(x)
    ensures var lo, hi := v.minVal.value.intValue as int, v.maxVal.value.longValue as int;
      SetDecision(Some(v), value, parseDouble).Success? <==> lo <= x <= hi
  {
    ParseIntegerWiden(value, INT_MIN, INT_MAX, LONG_MIN, LONG_MAX);
  }

  /** With Double bounds, a value parseDouble reads as d is written exactly when min <= d <= max. */
  lemma DoubleBoundsInclusive(v: Variable, value: string, parseDouble: string -> Option<real>, d: real)
    requires WellFormed(v) && Writable(v)
    requires v.minVal.Some? && v.minVal.value.Double?
    requires parseDouble(value) == Some(d)
    ensures v.maxVal.Some? && v.maxVal.value.Double?
    ensures SetDecision(Some(v), value, parseDouble).Success? <==>
      v.minVal.value.doubleValue <= d <= v.maxVal.value.doubleValue
  {
  }

  /** The decimal string of any number between Integer bounds is accepted. */
  lemma DecimalInRangeAccepted(v: Variable, n: int, parseDouble: string -> Option<real>)
    requires WellFormed(v) && Writable(v)
    requires v.minVal.Some? && v.minVal.value.Integer? && v.maxVal.Some? && v.maxVal.value.Integer?
    requires v.minVal.value.intValue as int <= n <= v.maxVal.value.intValue as int
    ensures SetDecision(Some(v), DecimalString(n), parseDouble).Success?
  {
    ParseIntegerOfDecimalString(n, INT_MIN, INT_MAX);
    IntegerBoundsInclusive(v, DecimalString(n), parseDouble, n);
  }

  /** No table variable with a Long bound can be written: it is read-only before any parse. */
  lemma TableLongBoundsReadOnly(v: Variable, value: string, parseDouble: string -> Option<real>)
    requires EntryOk(v)
    requires v.maxVal.Some? && v.maxVal.value.Long?
    ensures SetDecision(Some(v), value, parseDouble) == Failure(ReadOnly)
  {
  }

  // ------------------------------------------------------------------ the transport

  /** A Modbus request with the unit ID and start address the communicator gives it. */
  datatype Request =
    | WriteRegisters(unit: int32, start: int32, registers: seq<u16>)
    | ReadRegisters(unit: int32, start: int32, count: int32)

  /** How a transaction ends: it throws, or the device answers (with registers, for a read). */
  datatype Reply = Failed | Answered(registers: seq<u16>)

  /**
   * The connection and the device as an oracle: each executed transaction is logged and
   * takes the next scripted reply; with the script used up, every transaction fails.
   */
  class Transport {
    var log: seq<Request>
    var replies: seq<Reply>

    constructor(replies: seq<Reply>)
      ensures log == [] && this.replies == replies
    {
      log := [];
      this.replies := replies;
    }

    /** The reply the next transaction will get. */
    function NextReply(): (r: Reply)
      reads this
      ensures replies == [] ==> r == Failed
      ensures replies != [] ==> r == replies[0]
    {
      if replies == [] then Failed else replies[0]
    }

    /** The script after the next transaction. */
    function RestReplies(): (rest: seq<Reply>)
      reads this
      ensures |rest| == if replies == [] then 0 else |replies| - 1
    {
      if replies == [] then [] else replies[1..]
    }

    /** `trans.execute()`: sends a request and returns the device's reply. */
    method Execute(request: Request) returns (reply: Reply)
      modifies this
      ensures log == old(log) + [request]
      ensures reply == old(NextReply()) && replies == old(RestReplies())
    {
      log := log + [request];
      reply := NextReply();
      replies := RestReplies();
    }
  }

  // ------------------------------------------------------------------ the communicator

  /**
   * The communicator: connection parameters, the variable table and the connection.
   * parseDouble stands for `Double.parseDouble`, None where it throws.
   */
  class Communicator {
    const host: string
    const port: int32
    const unit: int32
    const startAddress: int32
    const vMap: VariableMap
    const conn: Transport
    const parseDouble: string -> Option<real>

    /**
     * The state every method relies on: the invariant of the table the constructor filled
     * (vMap.vMap == MapOf(Catalog()), as the constructors ensure). No method writes the
     * table afterwards: SetValue and GetValue modify only conn.
     */
    ghost predicate Valid()
      reads this, vMap
    {
      vMap.Valid()
    }

    /** Sets the parameters and fills a fresh variable table; the connection is given. */
    constructor(host: string, port: int32, unit: int32, startAddress: int32, conn: Transport,
                parseDouble: string -> Option<real>)
      ensures this.host == host && this.port == port && this.unit == unit
      ensures this.startAddress == startAddress && this.conn == conn && this.parseDouble == parseDouble
      ensures fresh(vMap) && vMap.vMap == MapOf(Catalog()) && Valid()
    {
      hide Catalog, MapOf, MainRows, KwFtfConfigRows, PortalRows;
      this.host := host;
      this.port := port;
      this.unit := unit;
      this.startAddress := startAddress;
      this.conn := conn;
      this.parseDouble := parseDouble;
      vMap := new VariableMap();
    }

    /** The host-only constructor: port 502, unit 180, start address 1. */
    constructor WithDefaults(host: string, conn: Transport, parseDouble: string -> Option<real>)
      ensures this.host == host && port == DEFAULT_PORT && unit == DEFAULT_UNIT
      ensures startAddress == DEFAULT_START_ADDRESS && this.conn == conn && this.parseDouble == parseDouble
      ensures fresh(vMap) && vMap.vMap == MapOf(Catalog()) && Valid()
    {
      hide Catalog, MapOf, MainRows, KwFtfConfigRows, PortalRows;
      this.host := host;
      this.port := DEFAULT_PORT;
      this.unit := DEFAULT_UNIT;
      this.startAddress := DEFAULT_START_ADDRESS;
      this.conn := conn;
      this.parseDouble := parseDouble;
      vMap := new VariableMap();
    }

    /**
     * setValue: when SetDecision refuses, the error and no transaction; otherwise exactly
     * one write of "vNNNNN=value" to the start address of the unit, which returns the
     * value unless the transaction fails.
     */
    method SetValue(variableName: string, value: string) returns (r: Result<string, HeliosError>)
      requires Valid()
      modifies conn
      ensures var d := SetDecision(vMap.GetVariable(variableName), value, parseDouble);
        match d
        case Failure(e) =>
          r == Failure(e) && conn.log == old(conn.log) && conn.replies == old(conn.replies)
        case Success(regs) =>
          && conn.log == old(conn.log) + [WriteRegisters(unit, startAddress, regs)]
          && conn.replies == old(conn.RestReplies())
          && r == (if old(conn.NextReply()).Failed? then Failure(CommunicationFailure) else Success(value))
    {
      var found := vMap.GetVariable(variableName);
      if found.None? {
        return Failure(UnknownVariable);
      }
      var v := found.value;
      if Writable(v) {
        var inAllowedRange := InAllowedRange(v, value, parseDouble);
        if inAllowedRange.Failure? {
          return Failure(inAllowedRange.error);
        }
        if inAllowedRange.value {
          var command := GetVariableString(v);
          var payload := command + "=" + value;
          var reg := PreparePayload(payload);
          var reply := conn.Execute(WriteRegisters(unit, startAddress, reg[..]));
          if reply.Failed? {
            r := Failure(CommunicationFailure);
          } else {
            r := Success(value);
          }
        } else {
          r := Failure(OutOfRange);
        }
      } else {
        r := Failure(ReadOnly);
      }
    }

    /**
     * getValue: for a known variable, a write of its command, then (unless that fails) a
     * read of count registers; the value is what decodeResponse finds in the read's
     * registers, None when it finds none. There is no access check.
     */
    method GetValue(variableName: string) returns (r: Result<Option<string>, HeliosError>)
      requires Valid()
      modifies conn
      ensures vMap.GetVariable(variableName).None? ==>
        r == Failure(UnknownVariable) && conn.log == old(conn.log) && conn.replies == old(conn.replies)
      ensures vMap.GetVariable(variableName).Some? ==>
        var v := vMap.GetVariable(variableName).value;
        var write := WriteRegisters(unit, startAddress, PreparedPayload(VariableString(v)));
        var read := ReadRegisters(unit, startAddress, v.count);
        var script := old(conn.replies);
        if script == [] || script[0].Failed? then
          && conn.log == old(conn.log) + [write]
          && conn.replies == (if script == [] then [] else script[1..])
          && r == Failure(CommunicationFailure)
        else if |script| == 1 || script[1].Failed? then
          && conn.log == old(conn.log) + [write, read]
          && conn.replies == (if |script| <= 1 then [] else script[2..])
          && r == Failure(CommunicationFailure)
        else
          conn.log == old(conn.log) + [write, read] && conn.replies == script[2..]
          && r == Success(DecodedValue(script[1].registers))
    {
      var found := vMap.GetVariable(variableName);
      if found.None? {
        return Failure(UnknownVariable);
      }
      var v := found.value;
      var payload := GetVariableString(v);
      var reg := PreparePayload(payload);
      var request1 := WriteRegisters(unit, startAddress, reg[..]);
      var request2 := ReadRegisters(unit, startAddress, v.count);
      var reply1 := conn.Execute(request1);
      if reply1.Failed? {
        return Failure(CommunicationFailure);
      }
      var reply2 := conn.Execute(request2);
      if reply2.Failed? {
        return Failure(CommunicationFailure);
      }
      var value := DecodeResponse(reply2.registers);
      r := Success(value);
    }
  }
}
