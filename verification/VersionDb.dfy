/** The address database: what `Load` makes of a file, and what lookups find afterwards. */
module VersionDb {
  import opened AddressEncoding
  import opened Options

  type Int32 = x: int | -0x8000_0000 <= x < 0x8000_0000

  function Signed(v: nat): Int32
    requires v < 0x1_0000_0000
  {
    if v < 0x8000_0000 then v else v - 0x1_0000_0000
  }

  function IntAt(tape: Tape, pos: nat): Int32 {
    RangeFacts();
    Signed(Number(tape, pos, 4))
  }

  function IntBytes(v: Int32): (r: seq<Byte>)
    ensures |r| == 4
  {
    Bytes(4, v % 0x1_0000_0000)
  }

  lemma SignedIs(u: nat, v: Int32)
    requires u < 0x1_0000_0000
    ensures Signed(u) == v <==> u == v % 0x1_0000_0000
  {
  }

  lemma IntReads(tape: Tape, pos: nat, v: Int32)
    ensures Holds(tape, pos, IntBytes(v)) <==> IntAt(tape, pos) == v
  {
    RangeFacts();
    SignedIs(Number(tape, pos, 4), v);
    hide Signed, Number, Bytes, Holds, Range;
    NumberOfBytes(tape, pos, 4, v % 0x1_0000_0000);
  }

  /** An `int` converted to an unsigned 64-bit word. */
  function Word(v: Int32): (w: U64)
    ensures w == if v >= 0 then v else 0x1_0000_0000_0000_0000 + v
  {
    v % WORD
  }

  // ---- What loading yields -----------------------------------------------------------------

  /** `Crashed` is a division by a zero pointer size, `Thrown` the exception of the offset switch. */
  datatype Outcome = Loaded | Rejected | Crashed | Thrown

  datatype Image = Image(outcome: Outcome, ver: seq<int>, base: U64, data: map<U64, U64>)

  const NO_VERSION: seq<int> := [0, 0, 0, 0]

  function VersionAt(tape: Tape): seq<int> {
    [IntAt(tape, 4), IntAt(tape, 8), IntAt(tape, 12), IntAt(tape, 16)]
  }

  predicate NameFits(n: int) {
    0 <= n < 0x1_0000
  }

  function Count(n: Int32): nat {
    if n < 0 then 0 else n
  }

  function DecodeBody(tape: Tape, pos: nat): Decoded {
    Decode(tape, pos + 8, Count(IntAt(tape, pos + 4)), Word(IntAt(tape, pos)), 0, 0, map[])
  }

  function Expected(file: Option<Tape>, format: int, moduleBase: U64): Image {
    match file
    case None => Image(Rejected, NO_VERSION, 0, map[])
    case Some(tape) =>
      var n := IntAt(tape, 20);
      if IntAt(tape, 0) != format then Image(Rejected, NO_VERSION, 0, map[])
      else if !NameFits(n) then Image(Rejected, VersionAt(tape), 0, map[])
      else
        match DecodeBody(tape, 24 + n)
        case Done(data) => Image(Loaded, VersionAt(tape), moduleBase, data)
        case BadMode => Image(Rejected, NO_VERSION, 0, map[])
        case ZeroPointer => Image(Crashed, VersionAt(tape), moduleBase, map[])
  }

  // ---- Files -------------------------------------------------------------------------------

  datatype File = File(format: Int32, ver: seq<Int32>, name: seq<Byte>, ptrSize: Int32, count: Int32, recs: seq<Rec>)

  /** A negative count is taken for none. */
  predicate ValidFile(f: File) {
    && |f.ver| == 4 && NameFits(|f.name|) && |f.recs| == Count(f.count)
    && ValidRecs(f.recs, 0, 0, Word(f.ptrSize))
  }

  function Head(f: File): (r: seq<Byte>)
    requires |f.ver| == 4 && NameFits(|f.name|)
    ensures |r| == 24
  {
    IntBytes(f.format)
    + (IntBytes(f.ver[0]) + (IntBytes(f.ver[1]) + (IntBytes(f.ver[2]) + (IntBytes(f.ver[3]) + IntBytes(|f.name|)))))
  }

  function Body(f: File): seq<Byte>
    requires ValidRecs(f.recs, 0, 0, Word(f.ptrSize))
  {
    IntBytes(f.ptrSize) + (IntBytes(f.count) + Encode(f.recs, 0, 0, Word(f.ptrSize)))
  }

  function FileBytes(f: File): seq<Byte>
    requires ValidFile(f)
  {
    Head(f) + (f.name + Body(f))
  }

  lemma HeadReads(tape: Tape, f: File)
    requires |f.ver| == 4 && NameFits(|f.name|)
    ensures Holds(tape, 0, Head(f)) <==>
      IntAt(tape, 0) == f.format && VersionAt(tape) == f.ver && IntAt(tape, 20) == |f.name|
  {
    hide Holds, IntBytes, IntAt;
    var e := IntBytes(|f.name|);
    var d := IntBytes(f.ver[3]) + e;
    var c := IntBytes(f.ver[2]) + d;
    var b := IntBytes(f.ver[1]) + c;
    var a := IntBytes(f.ver[0]) + b;
    HoldsConcat(tape, 0, IntBytes(f.format), a);
    HoldsConcat(tape, 4, IntBytes(f.ver[0]), b);
    HoldsConcat(tape, 8, IntBytes(f.ver[1]), c);
    HoldsConcat(tape, 12, IntBytes(f.ver[2]), d);
    HoldsConcat(tape, 16, IntBytes(f.ver[3]), e);
    IntReads(tape, 0, f.format);
    IntReads(tape, 4, f.ver[0]);
    IntReads(tape, 8, f.ver[1]);
    IntReads(tape, 12, f.ver[2]);
    IntReads(tape, 16, f.ver[3]);
    IntReads(tape, 20, |f.name|);
  }

  lemma BodyReads(tape: Tape, pos: nat, f: File)
    requires ValidRecs(f.recs, 0, 0, Word(f.ptrSize))
    ensures Holds(tape, pos, Body(f)) <==>
      && IntAt(tape, pos) == f.ptrSize && IntAt(tape, pos + 4) == f.count
      && Holds(tape, pos + 8, Encode(f.recs, 0, 0, Word(f.ptrSize)))
  {
    hide Holds, IntBytes, IntAt, Encode, ValidRecs, Word;
    var code := Encode(f.recs, 0, 0, Word(f.ptrSize));
    HoldsConcat(tape, pos, IntBytes(f.ptrSize), IntBytes(f.count) + code);
    HoldsConcat(tape, pos + 4, IntBytes(f.count), code);
    IntReads(tape, pos, f.ptrSize);
    IntReads(tape, pos + 4, f.count);
  }

  lemma FileReads(tape: Tape, f: File)
    requires ValidFile(f)
    ensures Holds(tape, 0, FileBytes(f)) <==>
      && IntAt(tape, 0) == f.format && VersionAt(tape) == f.ver && IntAt(tape, 20) == |f.name|
      && Holds(tape, 24, f.name)
      && IntAt(tape, 24 + |f.name|) == f.ptrSize && IntAt(tape, 24 + |f.name| + 4) == f.count
      && Holds(tape, 24 + |f.name| + 8, Encode(f.recs, 0, 0, Word(f.ptrSize)))
  {
    hide Holds, Head, Body, IntAt, Encode, ValidRecs, VersionAt, Word;
    HoldsConcat(tape, 0, Head(f), f.name + Body(f));
    HoldsConcat(tape, 24, f.name, Body(f));
    HeadReads(tape, f);
    BodyReads(tape, 24 + |f.name|, f);
  }

  /** Loading a valid file rebuilds its version and its index, the last record of an id winning. */
  lemma {:induction false} LoadReadsFile(tape: Tape, f: File, moduleBase: U64)
    requires ValidFile(f) && Holds(tape, 0, FileBytes(f))
    ensures Expected(Some(tape), f.format, moduleBase)
         == Image(Loaded, f.ver, moduleBase, Entered(map[], f.recs, Word(f.ptrSize)))
  {
    FileReads(tape, f);
    hide Holds, FileBytes, IntAt, Encode, Decode, ValidRecs, Entered, VersionAt, Word;
    DecodeEncoded(tape, 24 + |f.name| + 8, f.recs, Word(f.ptrSize), 0, 0, map[]);
  }

  function NameAt(tape: Tape, n: nat): (name: seq<Byte>)
    ensures |name| == n && Holds(tape, 24, name)
  {
    seq(n, i requires 0 <= i < n => tape(24 + i))
  }

  /** Whatever loads is a valid file of the wanted format. */
  lemma {:induction false} LoadedWasFile(tape: Tape, format: int, moduleBase: U64) returns (f: File)
    requires Expected(Some(tape), format, moduleBase).outcome == Loaded
    ensures ValidFile(f) && f.format == format && Holds(tape, 0, FileBytes(f))
  {
    hide FileBytes, IntAt, Encode, Decode, ValidRecs, Word, NameAt, Holds;
    var n := IntAt(tape, 20);
    var ptrSize, count := IntAt(tape, 24 + n), IntAt(tape, 24 + n + 4);
    var recs := DecodedWasEncoded(tape, 24 + n + 8, Count(count), Word(ptrSize), 0, 0, map[]);
    f := File(format, [IntAt(tape, 4), IntAt(tape, 8), IntAt(tape, 12), IntAt(tape, 16)],
              NameAt(tape, n), ptrSize, count, recs);
    FileReads(tape, f);
  }

  /** Loading succeeds exactly on valid files of the wanted format. */
  lemma {:induction false} LoadsExactlyFiles(tape: Tape, format: int, moduleBase: U64)
    ensures Expected(Some(tape), format, moduleBase).outcome == Loaded <==>
      exists f: File :: ValidFile(f) && f.format == format && Holds(tape, 0, FileBytes(f))
  {
    hide Expected, ValidFile, FileBytes, Holds;
    if Expected(Some(tape), format, moduleBase).outcome == Loaded {
      var f := LoadedWasFile(tape, format, moduleBase);
    }
    forall f: File | ValidFile(f) && f.format == format && Holds(tape, 0, FileBytes(f))
      ensures Expected(Some(tape), format, moduleBase).outcome == Loaded
    {
      LoadReadsFile(tape, f, moduleBase);
    }
  }

  /** Any list can be stored: spelling every id and offset out makes a valid file. */
  lemma EveryListHasAFile(format: Int32, ver: seq<Int32>, ptrSize: Int32, list: seq<Mapping>)
    requires |ver| == 4 && |list| < 0x8000_0000
    ensures ValidFile(File(format, ver, [], ptrSize, |list|, Plain(list)))
  {
    PlainIsValid(list, 0, 0, Word(ptrSize));
  }

  // ---- The database object -----------------------------------------------------------------

  /** One of the two mode switches of the decode loop: reads the operand the mode calls for. Modes
      above 7 are not handled. */
  method ReadDelta(tape: Tape, pos: nat, mode: nat, prev: U64) returns (ok: bool, value: U64, next: nat)
    ensures ok <==> mode < 8
    ensures ok ==> value == Value(mode, Number(tape, pos, Size(mode)), prev) && next == pos + Size(mode)
  {
    RangeFacts();
    hide Number, Range;
    assert Number(tape, pos, 4) < 0x1_0000_0000 && Number(tape, pos, 2) < 0x1_0000 && Number(tape, pos, 8) < WORD;
    ok, value, next := true, 0, pos;
    if mode == 0 {
      value, next := Number(tape, pos, 8), pos + 8;
    } else if mode == 1 {
      value := (prev + 1) % WORD;
    } else if mode == 2 {
      value, next := (prev + Number(tape, pos, 1)) % WORD, pos + 1;
    } else if mode == 3 {
      value, next := (prev - Number(tape, pos, 1)) % WORD, pos + 1;
    } else if mode == 4 {
      value, next := (prev + Number(tape, pos, 2)) % WORD, pos + 2;
    } else if mode == 5 {
      value, next := (prev - Number(tape, pos, 2)) % WORD, pos + 2;
    } else if mode == 6 {
      value, next := Number(tape, pos, 2), pos + 2;
    } else if mode == 7 {
      value, next := Number(tape, pos, 4), pos + 4;
    } else {
      ok := false;
    }
  }

  /** The part of the decode loop that reads one record: the one that the bytes at `pos` say. */
  method ReadRecord(tape: Tape, pos: nat, ptr: U64, pvid: U64, poffset: U64)
    returns (r: Outcome, q1: U64, q2: U64, next: nat)
    ensures r == if tape(pos) % 16 > 7 then Rejected else if tape(pos) / 16 >= 8 && ptr == 0 then Crashed else Loaded
    ensures r == Loaded ==> RecordBytes(tape, pos, ptr, pvid, poffset, q1, q2, next)
    ensures r == Loaded <==> Readable(tape, pos, ptr)
    ensures r == Loaded ==>
      var rec := RecAt(tape, pos, ptr, pvid, poffset);
      q1 == rec.id && q2 == Offset(rec, ptr) && next == pos + 1 + Size(rec.idMode) + Size(rec.offMode)
  {
    hide Number, Value, Size, Scale;
    r, q1, q2, next := Loaded, 0, 0, pos;
    var low, high := tape(pos) % 16, tape(pos) / 16;
    var ok;
    ok, q1, next := ReadDelta(tape, pos + 1, low, pvid);
    if !ok {
      return Rejected, q1, q2, next;
    }
    var tpoffset := poffset;
    if high >= 8 {
      if ptr == 0 {
        return Crashed, q1, q2, next;
      }
      tpoffset := poffset / ptr;
    }
    ok, q2, next := ReadDelta(tape, next, high % 8, tpoffset);
    if !ok {
      return Thrown, q1, q2, next;
    }
    if high >= 8 {
      q2 := Scale(q2, ptr);
    }
    RecAtBytes(tape, pos, ptr, pvid, poffset);
  }

  class VersionDb {
    var data: map<U64, U64>
    var ver: seq<int>
    var base: U64

    constructor ()
      ensures data == map[] && ver == NO_VERSION && base == 0
    {
      data, ver, base := map[], NO_VERSION, 0;
    }

    method Clear()
      modifies this
      ensures data == map[] && ver == NO_VERSION && base == 0
    {
      data, ver, base := map[], NO_VERSION, 0;
    }

    /** The address of an id; zero is the null pointer. */
    function Address(id: U64): U64
      reads this
    {
      if base == 0 || id !in data then 0 else (base + data[id]) % WORD
    }

    method FindOffsetById(id: U64) returns (r: Option<U64>)
      ensures r == if id in data then Some(data[id]) else None
    {
      r := None;
      if id in data {
        r := Some(data[id]);
      }
    }

    method FindAddressById(id: U64) returns (r: U64)
      ensures r == Address(id)
      ensures r == if base != 0 && id in data then (base + data[id]) % WORD else 0
    {
      if base == 0 {
        return 0;
      }
      var offset := FindOffsetById(id);
      match offset
      case None => return 0;
      case Some(o) => return (base + o) % WORD;
    }

    /** Loads the file, if there is one, for a module loaded at `moduleBase`. A call that returns
        false leaves nothing to be found, and the offset switch never throws. */
    method Load(format: int, file: Option<Tape>, moduleBase: U64) returns (r: Outcome)
      modifies this
      ensures r == Expected(file, format, moduleBase).outcome && r != Thrown
      ensures r != Crashed ==> Image(r, ver, base, data) == Expected(file, format, moduleBase)
      ensures r == Rejected ==> data == map[] && base == 0 && forall id :: Address(id) == 0
    {
      hide Number, Signed, Decode, Word;
      Clear();
      if file.None? {
        return Rejected;
      }
      var tape := file.value;
      if IntAt(tape, 0) != format {
        return Rejected;
      }
      ver := VersionAt(tape);
      var n := IntAt(tape, 20);
      if n < 0 || n >= 0x1_0000 {
        return Rejected;
      }
      base := moduleBase;
      r := ReadRecords(tape, 24 + n);
    }

    /** Nothing is stored and no address can be found. */
    ghost predicate Empty()
      reads this
    {
      data == map[] && base == 0
    }

    /** Loads the database of the running executable, if its version can be read; `files` are the files of
        format 2 by version. A call that returns false leaves nothing to be found exactly if the version
        was readable or there was nothing before: an unreadable version ends the call before anything is
        cleared. */
    method LoadOwn(version: Option<seq<Int32>>, files: seq<Int32> -> Option<Tape>, moduleBase: U64) returns (r: Outcome)
      modifies this
      ensures version.None? ==> r == Rejected && data == old(data) && ver == old(ver) && base == old(base)
      ensures version.Some? ==>
        && r == Expected(files(version.value), 2, moduleBase).outcome && r != Thrown
        && (r != Crashed ==> Image(r, ver, base, data) == Expected(files(version.value), 2, moduleBase))
      ensures r == Rejected ==> (Empty() <==> version.Some? || old(Empty()))
    {
      if version.None? {
        return Rejected;
      }
      r := Load(2, files(version.value), moduleBase);
    }

    /** The decode loop, from the pointer size and the record count on. */
    method ReadRecords(tape: Tape, start: nat) returns (r: Outcome)
      requires data == map[]
      modifies this
      ensures r == match DecodeBody(tape, start)
                   case Done(_) => Loaded case BadMode => Rejected case ZeroPointer => Crashed
      ensures r == Loaded ==> Done(data) == DecodeBody(tape, start) && ver == old(ver) && base == old(base)
      ensures r == Rejected ==> data == map[] && ver == NO_VERSION && base == 0
    {
      hide IntAt, Number, Size, Value, Word, RecAt, Offset, Readable;
      var ptr, count := Word(IntAt(tape, start)), IntAt(tape, start + 4);
      var pos: nat, pvid: U64, poffset: U64 := start + 8, 0, 0;
      var i := 0;
      while i < count
        invariant 0 <= i <= Count(count)
        invariant Decode(tape, pos, Count(count) - i, ptr, pvid, poffset, data) == DecodeBody(tape, start)
        invariant ver == old(ver) && base == old(base)
      {
        var q1, q2, next;
        r, q1, q2, next := ReadRecord(tape, pos, ptr, pvid, poffset);
        if r == Rejected {
          Clear();
        }
        if r != Loaded {
          return;
        }
        data := data[q1 := q2];
        pos, poffset, pvid := next, q2, q1;
        i := i + 1;
      }
      return Loaded;
    }
  }
}
