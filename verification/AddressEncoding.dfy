/** The delta coding of an address database: one type byte a record, then the operands its modes call
    for, with the previous record's id and offset carried along. All words are 64 bits wide. */
module AddressEncoding {

  const WORD: nat := 0x1_0000_0000_0000_0000

  type U64 = x: nat | x < WORD
  type Byte = x: nat | x < 256

  /** What a file yields from each position on: its bytes, and past its end whatever the reads of the
      decoder happen to leave in their variables. A result about every tape covers short files too. */
  type Tape = nat -> Byte

  // ---- Little-endian numbers ---------------------------------------------------------------

  function Range(size: nat): (r: nat)
    ensures r > 0
  {
    if size == 0 then 1 else 256 * Range(size - 1)
  }

  function Number(tape: Tape, pos: nat, size: nat): (v: nat)
    ensures v < Range(size)
    decreases size
  {
    if size == 0 then 0 else tape(pos) + 256 * Number(tape, pos + 1, size - 1)
  }

  function Bytes(size: nat, v: nat): (r: seq<Byte>)
    ensures |r| == size
  {
    if size == 0 then [] else [v % 256] + Bytes(size - 1, v / 256)
  }

  /** The bytes stand on the tape from `pos` on. */
  ghost predicate Holds(tape: Tape, pos: nat, bytes: seq<Byte>) {
    forall i :: 0 <= i < |bytes| ==> tape(pos + i) == bytes[i]
  }

  lemma HoldsConcat(tape: Tape, pos: nat, a: seq<Byte>, b: seq<Byte>)
    ensures Holds(tape, pos, a + b) <==> Holds(tape, pos, a) && Holds(tape, pos + |a|, b)
  {
    if Holds(tape, pos, a + b) {
      assert forall i :: 0 <= i < |a| ==> (a + b)[i] == a[i];
      forall i | 0 <= i < |b| ensures tape(pos + |a| + i) == b[i] {
        assert (a + b)[|a| + i] == b[i] && tape(pos + (|a| + i)) == (a + b)[|a| + i];
      }
    }
    if Holds(tape, pos, a) && Holds(tape, pos + |a|, b) {
      forall i | 0 <= i < |a + b| ensures tape(pos + i) == (a + b)[i] {
        if i >= |a| {
          assert tape(pos + |a| + (i - |a|)) == b[i - |a|];
        }
      }
    }
  }

  lemma HoldsOne(tape: Tape, pos: nat, b: Byte)
    ensures Holds(tape, pos, [b]) <==> tape(pos) == b
  {
    if Holds(tape, pos, [b]) {
      assert tape(pos + 0) == [b][0];
    }
  }

  /** The tape holds the bytes of a number exactly when reading there yields it. */
  lemma {:induction false} NumberOfBytes(tape: Tape, pos: nat, size: nat, v: nat)
    requires v < Range(size)
    ensures Holds(tape, pos, Bytes(size, v)) <==> Number(tape, pos, size) == v
    decreases size
  {
    if size > 0 {
      var low, high := [v % 256], Bytes(size - 1, v / 256);
      HoldsConcat(tape, pos, low, high);
      NumberOfBytes(tape, pos + 1, size - 1, v / 256);
      HoldsOne(tape, pos, v % 256);
    }
  }

  // ---- Modes -------------------------------------------------------------------------------

  type Mode = m: nat | m < 8

  /** How many bytes of operand a mode reads. */
  function Size(mode: Mode): nat {
    match mode
    case 0 => 8
    case 1 => 0
    case 2 => 1
    case 3 => 1
    case 4 => 2
    case 5 => 2
    case 6 => 2
    case _ => 4
  }

  /** The value a mode makes of its operand and the previous value. */
  function Value(mode: Mode, operand: nat, prev: U64): U64 {
    match mode
    case 1 => (prev + 1) % WORD
    case 2 => (prev + operand) % WORD
    case 3 => (prev - operand) % WORD
    case 4 => (prev + operand) % WORD
    case 5 => (prev - operand) % WORD
    case _ => operand % WORD
  }

  /** The distance from one word up to another, around the end if need be. */
  function Up(from: U64, to: U64): U64 {
    (to - from) % WORD
  }

  /** The operand with which a mode yields `value`, when its range allows. */
  function Operand(mode: Mode, value: U64, prev: U64): nat {
    match mode
    case 1 => 0
    case 2 => Up(prev, value)
    case 3 => Up(value, prev)
    case 4 => Up(prev, value)
    case 5 => Up(value, prev)
    case _ => value
  }

  /** The side condition under which a mode can code `value` after `prev`. */
  predicate Codable(mode: Mode, value: U64, prev: U64) {
    if mode == 1 then value == (prev + 1) % WORD else Operand(mode, value, prev) < Range(Size(mode))
  }

  lemma RangeFacts()
    ensures Range(0) == 1 && Range(1) == 256 && Range(2) == 0x1_0000 && Range(4) == 0x1_0000_0000 && Range(8) == WORD
  {
    assert Range(1) == 256 * Range(0) && Range(2) == 256 * Range(1) && Range(3) == 256 * Range(2);
    assert Range(4) == 256 * Range(3) && Range(5) == 256 * Range(4) && Range(6) == 256 * Range(5);
    assert Range(7) == 256 * Range(6) && Range(8) == 256 * Range(7);
  }

  lemma SizeRange(mode: Mode)
    ensures Range(Size(mode)) <= WORD && (mode == 0 ==> Range(Size(mode)) == WORD)
  {
    RangeFacts();
  }

  lemma ModWord(a: int, b: U64)
    requires a == b || a == b + WORD || a == b - WORD
    ensures a % WORD == b
  {
  }

  /** A mode can code a value exactly when some operand in its range yields it, and that operand is
      the one `Operand` names. */
  lemma {:induction false} CodableIs(mode: Mode, value: U64, prev: U64, operand: nat)
    requires operand < Range(Size(mode))
    ensures Value(mode, operand, prev) == value <==> Codable(mode, value, prev) && operand == Operand(mode, value, prev)
  {
    SizeRange(mode);
    RangeFacts();
    var o: U64 := operand;
    hide Range, Up;
    if mode == 2 || mode == 4 {
      Wrap(prev, o, value);
    } else if mode == 3 || mode == 5 {
      Wrap(value, o, prev);
    } else {
      ModWord(o, o);
    }
  }

  /** Adding a word and taking the distance undo each other modulo the word size. */
  lemma Wrap(a: U64, o: U64, b: U64)
    ensures (a + o) % WORD == b <==> o == Up(a, b)
    ensures (b - o) % WORD == a <==> o == Up(a, b)
  {
    var s := if a + o < WORD then a + o else a + o - WORD;
    ModWord(a + o, s);
    var d := if a <= b then b - a else b - a + WORD;
    ModWord(b - a, d);
    var e := if o <= b then b - o else b - o + WORD;
    ModWord(b - o, e);
  }

  // ---- Records -----------------------------------------------------------------------------

  /** One record: its id, its offset in units of the pointer size if it is scaled, and the modes
      chosen to code them. */
  datatype Rec = Rec(id: U64, unit: U64, idMode: Mode, offMode: Mode, scaled: bool)

  /** A product of words. */
  function Scale(unit: U64, ptr: U64): U64 {
    unit * ptr % WORD
  }

  function Offset(r: Rec, ptr: U64): U64 {
    if r.scaled then Scale(r.unit, ptr) else r.unit
  }

  /** The previous offset in the units a record counts in. */
  function InUnits(scaled: bool, offset: U64, ptr: U64): U64
    requires scaled ==> ptr != 0
  {
    if scaled then offset / ptr else offset
  }

  function TypeByte(r: Rec): Byte {
    r.idMode + 16 * (r.offMode + if r.scaled then 8 else 0)
  }

  predicate ValidRec(r: Rec, prevId: U64, prevOffset: U64, ptr: U64) {
    && Codable(r.idMode, r.id, prevId)
    && (r.scaled ==> ptr != 0)
    && Codable(r.offMode, r.unit, InUnits(r.scaled, prevOffset, ptr))
  }

  predicate ValidRecs(recs: seq<Rec>, prevId: U64, prevOffset: U64, ptr: U64)
    decreases |recs|
  {
    recs == [] ||
    (ValidRec(recs[0], prevId, prevOffset, ptr) && ValidRecs(recs[1..], recs[0].id, Offset(recs[0], ptr), ptr))
  }

  function EncodeRec(r: Rec, prevId: U64, prevOffset: U64, ptr: U64): seq<Byte>
    requires r.scaled ==> ptr != 0
  {
    [TypeByte(r)]
    + Bytes(Size(r.idMode), Operand(r.idMode, r.id, prevId))
    + Bytes(Size(r.offMode), Operand(r.offMode, r.unit, InUnits(r.scaled, prevOffset, ptr)))
  }

  function Encode(recs: seq<Rec>, prevId: U64, prevOffset: U64, ptr: U64): seq<Byte>
    requires ValidRecs(recs, prevId, prevOffset, ptr)
    decreases |recs|
  {
    if recs == [] then []
    else EncodeRec(recs[0], prevId, prevOffset, ptr) + Encode(recs[1..], recs[0].id, Offset(recs[0], ptr), ptr)
  }

  /** The index after the records have been entered in turn. */
  function Entered(data: map<U64, U64>, recs: seq<Rec>, ptr: U64): map<U64, U64>
    decreases |recs|
  {
    if recs == [] then data else Entered(data[recs[0].id := Offset(recs[0], ptr)], recs[1..], ptr)
  }

  // ---- Decoding ----------------------------------------------------------------------------

  datatype Decoded = Done(data: map<U64, U64>) | BadMode | ZeroPointer

  predicate Readable(tape: Tape, pos: nat, ptr: U64) {
    tape(pos) % 16 <= 7 && (tape(pos) / 16 >= 8 ==> ptr != 0)
  }

  /** The record the decoder reads at `pos`. */
  function RecAt(tape: Tape, pos: nat, ptr: U64, prevId: U64, prevOffset: U64): Rec
    requires Readable(tape, pos, ptr)
  {
    var low: Mode, high := tape(pos) % 16, tape(pos) / 16;
    var mode: Mode := high % 8;
    Rec(Value(low, Number(tape, pos + 1, Size(low)), prevId),
        Value(mode, Number(tape, pos + 1 + Size(low), Size(mode)), InUnits(high >= 8, prevOffset, ptr)),
        low, mode, high >= 8)
  }

  /** What the decode loop makes of `count` records that begin at `pos`. */
  function Decode(tape: Tape, pos: nat, count: nat, ptr: U64, prevId: U64, prevOffset: U64,
                  data: map<U64, U64>): Decoded
    decreases count
  {
    if count == 0 then Done(data)
    else if !Readable(tape, pos, ptr) then (if tape(pos) % 16 > 7 then BadMode else ZeroPointer)
    else
      var r := RecAt(tape, pos, ptr, prevId, prevOffset);
      Decode(tape, pos + 1 + Size(r.idMode) + Size(r.offMode), count - 1, ptr, r.id, Offset(r, ptr),
             data[r.id := Offset(r, ptr)])
  }

  /** A mode can code a value and the tape holds its operand exactly when reading it yields the value. */
  lemma OperandReads(tape: Tape, pos: nat, mode: Mode, value: U64, prev: U64)
    ensures
      (Codable(mode, value, prev) && Holds(tape, pos, Bytes(Size(mode), Operand(mode, value, prev))))
      <==> Value(mode, Number(tape, pos, Size(mode)), prev) == value
  {
    var n := Number(tape, pos, Size(mode));
    CodableIs(mode, value, prev, n);
    if Codable(mode, value, prev) {
      RangeFacts();
      NumberOfBytes(tape, pos, Size(mode), Operand(mode, value, prev));
    }
  }

  /** The type byte names the two modes and the scaling of a record, and nothing else does. */
  lemma TypeByteReads(b: Byte, r: Rec)
    ensures b == TypeByte(r) <==> b % 16 == r.idMode && b / 16 % 8 == r.offMode && (b / 16 >= 8 <==> r.scaled)
  {
  }

  /** The tape holds the encoding of a valid record exactly when that is the record the decoder reads. */
  lemma {:induction false} RecordReads(tape: Tape, pos: nat, r: Rec, ptr: U64, prevId: U64, prevOffset: U64)
    ensures
      (ValidRec(r, prevId, prevOffset, ptr) && Holds(tape, pos, EncodeRec(r, prevId, prevOffset, ptr)))
      <==> (Readable(tape, pos, ptr) && RecAt(tape, pos, ptr, prevId, prevOffset) == r)
    ensures ValidRec(r, prevId, prevOffset, ptr) ==> r.scaled ==> ptr != 0
  {
    TypeByteReads(tape(pos), r);
    hide TypeByte, Size, Operand, Codable, Holds, Bytes, Number, Value, InUnits, EncodeRec;
    if r.scaled ==> ptr != 0 {
      RecordHolds(tape, pos, r, ptr, prevId, prevOffset);
      OperandReads(tape, pos + 1, r.idMode, r.id, prevId);
      OperandReads(tape, pos + 1 + Size(r.idMode), r.offMode, r.unit, InUnits(r.scaled, prevOffset, ptr));
    }
  }

  lemma RecordHolds(tape: Tape, pos: nat, r: Rec, ptr: U64, prevId: U64, prevOffset: U64)
    requires r.scaled ==> ptr != 0
    ensures
      var a, b := Size(r.idMode), Size(r.offMode);
      Holds(tape, pos, EncodeRec(r, prevId, prevOffset, ptr)) <==>
        && tape(pos) == TypeByte(r)
        && Holds(tape, pos + 1, Bytes(a, Operand(r.idMode, r.id, prevId)))
        && Holds(tape, pos + 1 + a, Bytes(b, Operand(r.offMode, r.unit, InUnits(r.scaled, prevOffset, ptr))))
    ensures |EncodeRec(r, prevId, prevOffset, ptr)| == 1 + Size(r.idMode) + Size(r.offMode)
  {
    hide TypeByte, Operand, Holds, InUnits;
    var x := Bytes(Size(r.idMode), Operand(r.idMode, r.id, prevId));
    var y := Bytes(Size(r.offMode), Operand(r.offMode, r.unit, InUnits(r.scaled, prevOffset, ptr)));
    HoldsConcat(tape, pos, [TypeByte(r)] + x, y);
    HoldsConcat(tape, pos, [TypeByte(r)], x);
    HoldsOne(tape, pos, TypeByte(r));
  }

  // ---- The decoder inverts every valid encoding, and accepts nothing else ------------------

  /** If the tape holds a valid encoding of the records, decoding enters exactly these, in order. */
  lemma {:induction false} DecodeEncoded(tape: Tape, pos: nat, recs: seq<Rec>, ptr: U64,
                                         prevId: U64, prevOffset: U64, data: map<U64, U64>)
    requires ValidRecs(recs, prevId, prevOffset, ptr) && Holds(tape, pos, Encode(recs, prevId, prevOffset, ptr))
    ensures Decode(tape, pos, |recs|, ptr, prevId, prevOffset, data) == Done(Entered(data, recs, ptr))
    decreases |recs|
  {
    hide RecAt, Readable, Size, ValidRec, EncodeRec, Holds, Offset;
    if recs != [] {
      var r := recs[0];
      RecordReads(tape, pos, r, ptr, prevId, prevOffset);
      var code, offset := EncodeRec(r, prevId, prevOffset, ptr), Offset(r, ptr);
      HoldsConcat(tape, pos, code, Encode(recs[1..], r.id, offset, ptr));
      RecordHolds(tape, pos, r, ptr, prevId, prevOffset);
      DecodeEncoded(tape, pos + |code|, recs[1..], ptr, r.id, offset, data[r.id := offset]);
    }
  }

  /** Whatever the decoder accepts is the valid encoding of the records it reads. */
  lemma {:induction false} DecodedWasEncoded(tape: Tape, pos: nat, count: nat, ptr: U64,
                                             prevId: U64, prevOffset: U64, data: map<U64, U64>)
    returns (recs: seq<Rec>)
    requires Decode(tape, pos, count, ptr, prevId, prevOffset, data).Done?
    ensures |recs| == count && ValidRecs(recs, prevId, prevOffset, ptr)
    ensures Holds(tape, pos, Encode(recs, prevId, prevOffset, ptr))
    decreases count
  {
    hide RecAt, Readable, Size, ValidRec, EncodeRec, Offset;
    recs := [];
    if count > 0 {
      var r := RecAt(tape, pos, ptr, prevId, prevOffset);
      var next := pos + 1 + Size(r.idMode) + Size(r.offMode);
      var rest := DecodedWasEncoded(tape, next, count - 1, ptr, r.id, Offset(r, ptr), data[r.id := Offset(r, ptr)]);
      hide Decode, Holds, Encode, ValidRecs;
      RecordReads(tape, pos, r, ptr, prevId, prevOffset);
      EncodedCons(tape, pos, r, rest, ptr, prevId, prevOffset);
      recs := [r] + rest;
    }
  }

  lemma EncodedCons(tape: Tape, pos: nat, r: Rec, rest: seq<Rec>, ptr: U64, prevId: U64, prevOffset: U64)
    requires ValidRec(r, prevId, prevOffset, ptr) && ValidRecs(rest, r.id, Offset(r, ptr), ptr)
    requires Holds(tape, pos, EncodeRec(r, prevId, prevOffset, ptr))
    requires Holds(tape, pos + 1 + Size(r.idMode) + Size(r.offMode), Encode(rest, r.id, Offset(r, ptr), ptr))
    ensures ValidRecs([r] + rest, prevId, prevOffset, ptr)
    ensures Holds(tape, pos, Encode([r] + rest, prevId, prevOffset, ptr))
  {
    RecordHolds(tape, pos, r, ptr, prevId, prevOffset);
    hide Size, Codable, EncodeRec, Holds, Offset, InUnits;
    assert ([r] + rest)[1..] == rest;
    HoldsConcat(tape, pos, EncodeRec(r, prevId, prevOffset, ptr), Encode(rest, r.id, Offset(r, ptr), ptr));
  }

  /** The decoder succeeds exactly on the valid encodings of lists of records, and the result is
      what entering these in order gives: the last record of an id wins. */
  lemma DecodeInvertsEncode(tape: Tape, pos: nat, count: nat, ptr: U64, data: map<U64, U64>)
    ensures Decode(tape, pos, count, ptr, 0, 0, map[]) == Done(data) <==>
      exists recs: seq<Rec> ::
        && |recs| == count && ValidRecs(recs, 0, 0, ptr) && Holds(tape, pos, Encode(recs, 0, 0, ptr))
        && data == Entered(map[], recs, ptr)
  {
    hide Decode, ValidRecs, Encode, Entered, Holds;
    if Decode(tape, pos, count, ptr, 0, 0, map[]).Done? {
      var recs := DecodedWasEncoded(tape, pos, count, ptr, 0, 0, map[]);
      DecodeEncoded(tape, pos, recs, ptr, 0, 0, map[]);
    }
    forall recs: seq<Rec> | |recs| == count && ValidRecs(recs, 0, 0, ptr) && Holds(tape, pos, Encode(recs, 0, 0, ptr))
      ensures Decode(tape, pos, count, ptr, 0, 0, map[]) == Done(Entered(map[], recs, ptr))
    {
      DecodeEncoded(tape, pos, recs, ptr, 0, 0, map[]);
    }
  }

  // ---- The last record of an id wins -------------------------------------------------------

  /** Record `k` is the last one of its id. */
  predicate LastOf(recs: seq<Rec>, k: nat, id: U64) {
    k < |recs| && recs[k].id == id && forall j :: k < j < |recs| ==> recs[j].id != id
  }

  lemma {:induction false} LastWriteWins(data: map<U64, U64>, recs: seq<Rec>, ptr: U64, id: U64)
    ensures forall k: nat :: LastOf(recs, k, id) ==>
              id in Entered(data, recs, ptr) && Entered(data, recs, ptr)[id] == Offset(recs[k], ptr)
    ensures (forall k :: 0 <= k < |recs| ==> recs[k].id != id) ==>
              (id in Entered(data, recs, ptr) <==> id in data)
              && (id in data ==> Entered(data, recs, ptr)[id] == data[id])
    decreases |recs|
  {
    hide Offset;
    if recs != [] {
      var data1 := data[recs[0].id := Offset(recs[0], ptr)];
      LastWriteWins(data1, recs[1..], ptr, id);
      forall k: nat | LastOf(recs, k, id)
        ensures id in Entered(data, recs, ptr) && Entered(data, recs, ptr)[id] == Offset(recs[k], ptr)
      {
        if k > 0 {
          assert LastOf(recs[1..], k - 1, id);
        } else {
          assert forall j :: 0 <= j < |recs| - 1 ==> recs[1..][j].id == recs[j + 1].id;
        }
      }
    }
  }

  // ---- Every list can be encoded -----------------------------------------------------------

  datatype Mapping = Mapping(id: U64, offset: U64)

  /** The encoding that spells every id and offset out. */
  function Plain(list: seq<Mapping>): (recs: seq<Rec>)
    ensures |recs| == |list|
    ensures forall i :: 0 <= i < |list| ==> recs[i] == Rec(list[i].id, list[i].offset, 0, 0, false)
  {
    seq(|list|, i requires 0 <= i < |list| => Rec(list[i].id, list[i].offset, 0, 0, false))
  }

  /** Mode 0 codes every list, whatever comes before. */
  lemma {:induction false} PlainIsValid(list: seq<Mapping>, prevId: U64, prevOffset: U64, ptr: U64)
    ensures ValidRecs(Plain(list), prevId, prevOffset, ptr)
    decreases |list|
  {
    if list != [] {
      var recs := Plain(list);
      assert recs[1..] == Plain(list[1..]);
      PlainIsValid(list[1..], recs[0].id, Offset(recs[0], ptr), ptr);
      SizeRange(0);
    }
  }

  /** A record scaled by the pointer size reaches exactly the multiples of it, without wrapping when
      the unit is the quotient. */
  lemma ScaledOffset(id: U64, offset: U64, ptr: U64, idMode: Mode, offMode: Mode)
    requires ptr != 0 && offset % ptr == 0
    ensures Offset(Rec(id, offset / ptr, idMode, offMode, true), ptr) == offset
  {
    assert offset / ptr * ptr == offset;
  }

  // ---- What the decoder makes of the bytes -------------------------------------------------

  /** The number in two bytes, in four, and in eight: the lowest byte comes first. */
  function Two(tape: Tape, pos: nat): nat {
    tape(pos) + 0x100 * tape(pos + 1)
  }

  function Four(tape: Tape, pos: nat): nat {
    Two(tape, pos) + 0x1_0000 * Two(tape, pos + 2)
  }

  function Eight(tape: Tape, pos: nat): nat {
    Four(tape, pos) + 0x1_0000_0000 * Four(tape, pos + 4)
  }

  lemma TwoAreNumber(tape: Tape, pos: nat)
    ensures Number(tape, pos, 0) == 0 && Number(tape, pos, 1) == tape(pos) && Number(tape, pos, 2) == Two(tape, pos)
  {
    assert Number(tape, pos, 1) == tape(pos) + 256 * Number(tape, pos + 1, 0);
    assert Number(tape, pos + 1, 1) == tape(pos + 1) + 256 * Number(tape, pos + 2, 0);
  }

  lemma TwoMore(tape: Tape, pos: nat, size: nat)
    ensures Number(tape, pos, size + 2) == Two(tape, pos) + 0x1_0000 * Number(tape, pos + 2, size)
  {
    assert Number(tape, pos + 1, size + 1) == tape(pos + 1) + 256 * Number(tape, pos + 2, size);
  }

  lemma BytesAreNumber(tape: Tape, pos: nat)
    ensures Number(tape, pos, 4) == Four(tape, pos) && Number(tape, pos, 8) == Eight(tape, pos)
  {
    TwoMore(tape, pos, 2);
    TwoAreNumber(tape, pos + 2);
    TwoMore(tape, pos, 6);
    TwoMore(tape, pos + 2, 4);
    TwoMore(tape, pos + 4, 2);
    TwoAreNumber(tape, pos + 6);
  }

  /** After `prev`, the bytes at `pos` code `value` in this mode, and end before `next`. */
  predicate Codes(tape: Tape, pos: nat, mode: nat, prev: int, value: int, next: nat) {
    match mode
    case 0 => value == Eight(tape, pos) && next == pos + 8
    case 1 => value == (prev + 1) % WORD && next == pos
    case 2 => value == (prev + tape(pos)) % WORD && next == pos + 1
    case 3 => value == (prev - tape(pos)) % WORD && next == pos + 1
    case 4 => value == (prev + Two(tape, pos)) % WORD && next == pos + 2
    case 5 => value == (prev - Two(tape, pos)) % WORD && next == pos + 2
    case 6 => value == Two(tape, pos) && next == pos + 2
    case 7 => value == Four(tape, pos) && next == pos + 4
    case _ => false
  }

  lemma ValueCodes(tape: Tape, pos: nat, mode: Mode, prev: U64)
    ensures Codes(tape, pos, mode, prev, Value(mode, Number(tape, pos, Size(mode)), prev), pos + Size(mode))
  {
    RangeFacts();
    TwoAreNumber(tape, pos);
    BytesAreNumber(tape, pos);
    hide Number, Range, Two, Four, Eight;
    assert Number(tape, pos, 2) < 0x1_0000 && Number(tape, pos, 4) < 0x1_0000_0000 && Number(tape, pos, 8) < WORD;
  }

  lemma CodesOne(tape: Tape, pos: nat, mode: nat, prev: int, a: int, b: int, m: nat, n: nat)
    requires Codes(tape, pos, mode, prev, a, m) && Codes(tape, pos, mode, prev, b, n)
    ensures a == b && m == n
  {
    hide Two, Four, Eight;
  }

  /** The bytes at `pos` are the record of an id and an offset: the low half of the type byte codes the id
      after the previous id, up to `mid`; the high half codes the offset after the previous offset, in plain
      bytes or, with its top bit, as a number of pointer sizes. */
  predicate RecordParts(tape: Tape, pos: nat, ptr: U64, prevId: U64, prevOffset: U64,
                        id: U64, offset: U64, next: nat, mid: nat, unit: nat) {
    var low, high := tape(pos) % 16, tape(pos) / 16;
    && Codes(tape, pos + 1, low, prevId, id, mid)
    && (if high < 8 then unit == offset && Codes(tape, mid, high, prevOffset, unit, next)
        else ptr != 0 && offset == unit * ptr % WORD && Codes(tape, mid, high - 8, prevOffset / ptr, unit, next))
  }

  ghost predicate RecordBytes(tape: Tape, pos: nat, ptr: U64, prevId: U64, prevOffset: U64,
                              id: U64, offset: U64, next: nat) {
    exists mid: nat, unit: nat :: RecordParts(tape, pos, ptr, prevId, prevOffset, id, offset, next, mid, unit)
  }

  lemma RecAtModes(tape: Tape, pos: nat, ptr: U64, prevId: U64, prevOffset: U64)
    requires Readable(tape, pos, ptr)
    ensures
      var r, high := RecAt(tape, pos, ptr, prevId, prevOffset), tape(pos) / 16;
      && r.idMode == tape(pos) % 16
      && r.offMode == (if high < 8 then high else high - 8)
      && (r.scaled <==> high >= 8) && (r.scaled ==> ptr != 0)
  {
    hide Value, Number, Size, InUnits;
  }

  lemma RecAtValues(tape: Tape, pos: nat, ptr: U64, prevId: U64, prevOffset: U64)
    requires Readable(tape, pos, ptr)
    ensures
      var r := RecAt(tape, pos, ptr, prevId, prevOffset);
      var mid := pos + 1 + Size(r.idMode);
      && (r.scaled ==> ptr != 0)
      && r.id == Value(r.idMode, Number(tape, pos + 1, Size(r.idMode)), prevId)
      && r.unit == Value(r.offMode, Number(tape, mid, Size(r.offMode)), InUnits(r.scaled, prevOffset, ptr))
  {
    hide Value, Number, Size, InUnits;
  }

  lemma RecAtParts(tape: Tape, pos: nat, ptr: U64, prevId: U64, prevOffset: U64)
    requires Readable(tape, pos, ptr)
    ensures
      var r, high := RecAt(tape, pos, ptr, prevId, prevOffset), tape(pos) / 16;
      var mid := pos + 1 + Size(r.idMode);
      && r.idMode == tape(pos) % 16
      && r.offMode == (if high < 8 then high else high - 8)
      && (r.scaled <==> high >= 8) && (r.scaled ==> ptr != 0)
      && Codes(tape, pos + 1, r.idMode, prevId, r.id, mid)
      && Codes(tape, mid, r.offMode, InUnits(r.scaled, prevOffset, ptr), r.unit, mid + Size(r.offMode))
  {
    var r := RecAt(tape, pos, ptr, prevId, prevOffset);
    RecAtModes(tape, pos, ptr, prevId, prevOffset);
    RecAtValues(tape, pos, ptr, prevId, prevOffset);
    hide RecAt, Readable, Codes, Value, Number, Size, InUnits;
    ValueCodes(tape, pos + 1, r.idMode, prevId);
    ValueCodes(tape, pos + 1 + Size(r.idMode), r.offMode, InUnits(r.scaled, prevOffset, ptr));
  }

  /** What the decoder reads at `pos` is what the bytes there say. */
  lemma RecAtBytes(tape: Tape, pos: nat, ptr: U64, prevId: U64, prevOffset: U64)
    requires Readable(tape, pos, ptr)
    ensures
      var r := RecAt(tape, pos, ptr, prevId, prevOffset);
      RecordBytes(tape, pos, ptr, prevId, prevOffset, r.id, Offset(r, ptr), pos + 1 + Size(r.idMode) + Size(r.offMode))
  {
    RecAtParts(tape, pos, ptr, prevId, prevOffset);
    hide RecAt, Codes, Size, Readable;
    var r := RecAt(tape, pos, ptr, prevId, prevOffset);
    var mid := pos + 1 + Size(r.idMode);
    assert RecordParts(tape, pos, ptr, prevId, prevOffset, r.id, Offset(r, ptr), mid + Size(r.offMode), mid, r.unit);
  }

  lemma RecordPartsOne(tape: Tape, pos: nat, ptr: U64, prevId: U64, prevOffset: U64, id: U64, offset: U64, next: nat,
                       mid: nat, unit: nat, id': U64, offset': U64, next': nat, mid': nat, unit': nat)
    requires RecordParts(tape, pos, ptr, prevId, prevOffset, id, offset, next, mid, unit)
    requires RecordParts(tape, pos, ptr, prevId, prevOffset, id', offset', next', mid', unit')
    ensures id == id' && offset == offset' && next == next'
  {
    hide Codes;
    var low, high := tape(pos) % 16, tape(pos) / 16;
    CodesOne(tape, pos + 1, low, prevId, id, id', mid, mid');
    if high < 8 {
      CodesOne(tape, mid, high, prevOffset, unit, unit', next, next');
    } else {
      CodesOne(tape, mid, high - 8, prevOffset / ptr, unit, unit', next, next');
    }
  }

  /** Such bytes are what the decoder reads. */
  lemma BytesAreRecAt(tape: Tape, pos: nat, ptr: U64, prevId: U64, prevOffset: U64, id: U64, offset: U64, next: nat)
    requires RecordBytes(tape, pos, ptr, prevId, prevOffset, id, offset, next)
    ensures Readable(tape, pos, ptr)
    ensures
      var r := RecAt(tape, pos, ptr, prevId, prevOffset);
      id == r.id && offset == Offset(r, ptr) && next == pos + 1 + Size(r.idMode) + Size(r.offMode)
  {
    var mid: nat, unit: nat :| RecordParts(tape, pos, ptr, prevId, prevOffset, id, offset, next, mid, unit);
    assert Readable(tape, pos, ptr);
    RecAtBytes(tape, pos, ptr, prevId, prevOffset);
    var r := RecAt(tape, pos, ptr, prevId, prevOffset);
    var next', offset' := pos + 1 + Size(r.idMode) + Size(r.offMode), Offset(r, ptr);
    hide RecordParts, Size, RecAt, Offset, Readable;
    var mid': nat, unit': nat :|
      RecordParts(tape, pos, ptr, prevId, prevOffset, r.id, offset', next', mid', unit');
    RecordPartsOne(tape, pos, ptr, prevId, prevOffset, id, offset, next, mid, unit, r.id, offset', next', mid', unit');
  }

  lemma DecodeNext(tape: Tape, pos: nat, count: nat, ptr: U64, prevId: U64, prevOffset: U64, data: map<U64, U64>)
    requires count > 0 && Readable(tape, pos, ptr)
    ensures
      var r := RecAt(tape, pos, ptr, prevId, prevOffset);
      Decode(tape, pos, count, ptr, prevId, prevOffset, data)
      == Decode(tape, pos + 1 + Size(r.idMode) + Size(r.offMode), count - 1, ptr, r.id, Offset(r, ptr),
                data[r.id := Offset(r, ptr)])
  {
    hide Readable, RecAt, Size, Offset;
  }

  /** Decoding enters what the bytes say, record by record. */
  lemma {:induction false} DecodeFollowsBytes(tape: Tape, pos: nat, count: nat, ptr: U64, prevId: U64, prevOffset: U64,
                                              data: map<U64, U64>, id: U64, offset: U64, next: nat)
    requires count > 0 && RecordBytes(tape, pos, ptr, prevId, prevOffset, id, offset, next)
    ensures Decode(tape, pos, count, ptr, prevId, prevOffset, data)
         == Decode(tape, next, count - 1, ptr, id, offset, data[id := offset])
  {
    hide RecordBytes, Readable, RecAt, Size, Offset, Decode;
    BytesAreRecAt(tape, pos, ptr, prevId, prevOffset, id, offset, next);
    DecodeNext(tape, pos, count, ptr, prevId, prevOffset, data);
  }

  /** It stops exactly at a low half above 7, and at a record scaled by a pointer size of zero. */
  lemma {:induction false} DecodeStopsExactly(tape: Tape, pos: nat, count: nat, ptr: U64, prevId: U64, prevOffset: U64,
                                              data: map<U64, U64>)
    requires count > 0
    ensures tape(pos) % 16 > 7 ==> Decode(tape, pos, count, ptr, prevId, prevOffset, data) == BadMode
    ensures tape(pos) % 16 <= 7 && tape(pos) / 16 >= 8 && ptr == 0 ==>
              Decode(tape, pos, count, ptr, prevId, prevOffset, data) == ZeroPointer
    ensures tape(pos) % 16 <= 7 && !(tape(pos) / 16 >= 8 && ptr == 0) <==>
              exists id: U64, offset: U64, next: nat ::
                RecordBytes(tape, pos, ptr, prevId, prevOffset, id, offset, next)
  {
    if Readable(tape, pos, ptr) {
      RecAtBytes(tape, pos, ptr, prevId, prevOffset);
    }
    hide RecordBytes, Size, RecAt, Offset;
    forall id: U64, offset: U64, next: nat | RecordBytes(tape, pos, ptr, prevId, prevOffset, id, offset, next)
      ensures Readable(tape, pos, ptr)
    {
      BytesAreRecAt(tape, pos, ptr, prevId, prevOffset, id, offset, next);
    }
  }

  lemma AddMultiple(a: int, k: int)
    ensures (a + k * WORD) % WORD == a % WORD
  {
  }

  lemma Distribute(a: int, b: int, p: int)
    ensures (a + b) * p == a * p + b * p
  {
  }

  lemma Regroup(k: int, w: int, p: int)
    ensures k * w * p == k * p * w
  {
  }

  lemma ModTimes(x: int, p: int)
    ensures x % WORD * p % WORD == x * p % WORD
  {
    var k, m := x / WORD, x % WORD;
    assert x == m + k * WORD;
    Distribute(m, k * WORD, p);
    Regroup(k, WORD, p);
    AddMultiple(m * p, k * p);
  }

  lemma BelowIsMultiple(a: nat, p: nat)
    requires p > 0
    ensures a / p * p == a - a % p
  {
  }

  lemma ScaledBy(prevOffset: U64, ptr: U64, n: int, unit: nat)
    requires ptr != 0 && unit == (prevOffset / ptr + n) % WORD
    ensures unit * ptr % WORD == (prevOffset - prevOffset % ptr + n * ptr) % WORD
  {
    var q := prevOffset / ptr;
    BelowIsMultiple(prevOffset, ptr);
    ModTimes(q + n, ptr);
    Distribute(q, n, ptr);
  }

  /** What the modes from 1 to 5 add to the value before: one, or the bytes of an operand, or less these. */
  function Delta(tape: Tape, pos: nat, mode: nat): int
    requires 1 <= mode <= 5
  {
    match mode
    case 1 => 1
    case 2 => tape(pos)
    case 3 => 0 - tape(pos)
    case 4 => Two(tape, pos)
    case _ => 0 - Two(tape, pos)
  }

  lemma CodesDelta(tape: Tape, pos: nat, mode: nat, prev: int, value: int, next: nat)
    requires 1 <= mode <= 5 && Codes(tape, pos, mode, prev, value, next)
    ensures value == (prev + Delta(tape, pos, mode)) % WORD
  {
    hide Two, Four, Eight;
  }

  /** Scaled deltas count in pointer sizes from the last multiple of it at or below the previous offset:
      after an offset that is a multiple, from there. */
  lemma {:induction false} ScaledDelta(tape: Tape, pos: nat, ptr: U64, prevId: U64, prevOffset: U64,
                                       id: U64, offset: U64, next: nat, mid: nat, unit: nat)
    requires RecordParts(tape, pos, ptr, prevId, prevOffset, id, offset, next, mid, unit)
    requires 9 <= tape(pos) / 16 <= 13
    ensures ptr != 0
    ensures offset == (prevOffset - prevOffset % ptr + Delta(tape, mid, tape(pos) / 16 - 8) * ptr) % WORD
  {
    var n := Delta(tape, mid, tape(pos) / 16 - 8);
    CodesDelta(tape, mid, tape(pos) / 16 - 8, prevOffset / ptr, unit, next);
    hide Codes, Delta;
    ScaledBy(prevOffset, ptr, n, unit);
  }

  /** With pointers of eight bytes, the single type byte 0x91 after id 1 at offset 16 is id 2 at offset 24. */
  lemma ScaledStep(tape: Tape, pos: nat, data: map<U64, U64>)
    requires tape(pos) == 0x91
    ensures Decode(tape, pos, 1, 8, 1, 16, data) == Done(data[2 := 24])
  {
    assert RecordParts(tape, pos, 8, 1, 16, 2, 24, pos + 1, pos + 1, 3);
    DecodeFollowsBytes(tape, pos, 1, 8, 1, 16, data, 2, 24, pos + 1);
  }
}
