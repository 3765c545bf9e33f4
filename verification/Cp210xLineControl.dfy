/** The line-control register of the CP210x and its translation to and from termios flags (cp210x.c).

    The register holds data bits in 8..11, parity in 4..7 and stop bits in 0..3.
    The termios flag values are those of Linux's asm-generic/termbits.h, which is not part of the repository. */
module Cp210xLineControl {

  type Flags = bv32
  type Register = bv16

  const CSIZE: Flags := 0x30
  const CS5: Flags := 0x00
  const CS6: Flags := 0x10
  const CS7: Flags := 0x20
  const CS8: Flags := 0x30
  const CSTOPB: Flags := 0x40
  const PARENB: Flags := 0x100
  const PARODD: Flags := 0x200
  const CMSPAR: Flags := 0x4000_0000
  const PARITY: Flags := 0x4000_0300

  const BITS_DATA_MASK: Register := 0x0f00
  const BITS_DATA_5: Register := 0x0500
  const BITS_DATA_6: Register := 0x0600
  const BITS_DATA_7: Register := 0x0700
  const BITS_DATA_8: Register := 0x0800
  const BITS_DATA_9: Register := 0x0900

  const BITS_PARITY_MASK: Register := 0x00f0
  const BITS_PARITY_NONE: Register := 0x0000
  const BITS_PARITY_ODD: Register := 0x0010
  const BITS_PARITY_EVEN: Register := 0x0020
  const BITS_PARITY_MARK: Register := 0x0030
  const BITS_PARITY_SPACE: Register := 0x0040

  const BITS_STOP_MASK: Register := 0x000f
  const BITS_STOP_1: Register := 0x0000
  const BITS_STOP_1_5: Register := 0x0001
  const BITS_STOP_2: Register := 0x0002

  // ---------------------------------------------------------------- masks

  predicate Has(c: Flags, flag: Flags) { c & flag != 0 }

  function Of(c: Flags, mask: Flags): Flags { c & mask }

  function Field(r: Register, mask: Register): Register { r & mask }

  function Without(r: Register, mask: Register): Register { r & !mask }

  function Put(r: Register, mask: Register, value: Register): Register { Without(r, mask) | value }

  // ---------------------------------------------------------------- what flags and register mean

  datatype Parity = NoParity | Odd | Even | Mark | Space

  /** A line setting, as both sides express it. */
  datatype Line = Line(dataBits: nat, parity: Parity, twoStops: bool)

  function LineOfFlags(c: Flags): Line {
    Line(
      if Of(c, CSIZE) == CS5 then 5 else if Of(c, CSIZE) == CS6 then 6 else if Of(c, CSIZE) == CS7 then 7 else 8,
      if !Has(c, PARENB) then NoParity
      else if Has(c, CMSPAR) then (if Has(c, PARODD) then Mark else Space)
      else if Has(c, PARODD) then Odd else Even,
      Has(c, CSTOPB))
  }

  datatype Setting = Nothing | Setting(line: Line)

  /** The setting a register content stands for, where the driver supports it. */
  function SettingOfRegister(r: Register): Setting {
    var data := Field(r, BITS_DATA_MASK);
    var parity := Field(r, BITS_PARITY_MASK);
    var stop := Field(r, BITS_STOP_MASK);
    if data in {BITS_DATA_5, BITS_DATA_6, BITS_DATA_7, BITS_DATA_8} && parity <= BITS_PARITY_SPACE
       && stop in {BITS_STOP_1, BITS_STOP_2} then
      Setting(Line(
        if data == BITS_DATA_5 then 5 else if data == BITS_DATA_6 then 6 else if data == BITS_DATA_7 then 7 else 8,
        if parity == BITS_PARITY_NONE then NoParity else if parity == BITS_PARITY_ODD then Odd
        else if parity == BITS_PARITY_EVEN then Even else if parity == BITS_PARITY_MARK then Mark else Space,
        stop == BITS_STOP_2))
    else Nothing
  }

  /** The register encodes the flags; reserved bits are not looked at. */
  predicate Encodes(r: Register, c: Flags) {
    SettingOfRegister(r) == Setting(LineOfFlags(c))
  }

  // ---------------------------------------------------------------- the device

  class Device {
    var lineControl: Register
    /** How many times the driver has written the register. */
    var writes: nat

    constructor (r: Register)
      ensures lineControl == r && writes == 0
    {
      lineControl := r;
      writes := 0;
    }

    method SetLineControl(bits: Register)
      modifies this
      ensures lineControl == bits && writes == old(writes) + 1
    {
      lineControl := bits;
      writes := writes + 1;
    }

    /** The line-control part of cp210x_extratermios: only the fields whose flags changed are rewritten. */
    method SetTermios(cflag: Flags, oldCflag: Flags)
      modifies this
      ensures lineControl == Updated(old(lineControl), cflag, oldCflag)
      ensures old(Encodes(lineControl, oldCflag)) ==> Encodes(lineControl, cflag)
      ensures Field(lineControl, 0xf000) == Field(old(lineControl), 0xf000)
      ensures LineFlags(cflag) == LineFlags(oldCflag) ==> writes == old(writes)
      ensures writes == old(writes) + One(Of(cflag, CSIZE) != Of(oldCflag, CSIZE))
                        + One(Of(cflag, PARITY) != Of(oldCflag, PARITY)) + One(Of(cflag, CSTOPB) != Of(oldCflag, CSTOPB))
    {
      UpdatedEncodes(lineControl, cflag, oldCflag);
      SameLineFlags(cflag, oldCflag);
      if Of(cflag, CSIZE) != Of(oldCflag, CSIZE) {
        var bits := lineControl;
        SetLineControl(Put(bits, BITS_DATA_MASK, DataBits(cflag)));
      }
      if Of(cflag, PARITY) != Of(oldCflag, PARITY) {
        var bits := lineControl;
        SetLineControl(Put(bits, BITS_PARITY_MASK, ParityBits(cflag)));
      }
      if Of(cflag, CSTOPB) != Of(oldCflag, CSTOPB) {
        var bits := lineControl;
        SetLineControl(Put(bits, BITS_STOP_MASK, StopBits(cflag)));
      }
    }

    /** The line-control part of cp210x_get_termios_port: decode, and put a supported value
        into every field that holds an unsupported one. */
    method GetTermios(before: Flags) returns (cflag: Flags)
      modifies this
      ensures lineControl == Normalised(old(lineControl))
      ensures cflag == ReadFlags(old(lineControl), before)
      ensures writes == old(writes) + Repairs(old(lineControl))
    {
      var bits := lineControl;
      cflag := SizeFlags(bits, before);
      if !DataSupported(bits) {
        bits := Put(bits, BITS_DATA_MASK, BITS_DATA_8);
        SetLineControl(bits);
      }
      cflag := ParityFlags(bits, cflag);
      if !ParitySupported(bits) {
        bits := Without(bits, BITS_PARITY_MASK);
        SetLineControl(bits);
      }
      cflag := StopFlags(bits, cflag);
      if !StopSupported(bits) {
        bits := Without(bits, BITS_STOP_MASK);
        SetLineControl(bits);
      }
    }
  }

  // ---------------------------------------------------------------- specification of writing

  function One(b: bool): nat { if b then 1 else 0 }

  function LineFlags(c: Flags): Flags {
    c & 0x4000_0370
  }

  lemma SameLineFlags(c: Flags, d: Flags)
    ensures LineFlags(c) == LineFlags(d) ==>
      Of(c, CSIZE) == Of(d, CSIZE) && Of(c, PARITY) == Of(d, PARITY) && Of(c, CSTOPB) == Of(d, CSTOPB)
  {
    assert Of(c, CSIZE) == LineFlags(c) & CSIZE && Of(d, CSIZE) == LineFlags(d) & CSIZE;
    assert Of(c, PARITY) == LineFlags(c) & PARITY && Of(d, PARITY) == LineFlags(d) & PARITY;
    assert c & CSTOPB == LineFlags(c) & CSTOPB && d & CSTOPB == LineFlags(d) & CSTOPB;
  }

  function DataBits(c: Flags): Register {
    if Of(c, CSIZE) == CS5 then BITS_DATA_5 else if Of(c, CSIZE) == CS6 then BITS_DATA_6
    else if Of(c, CSIZE) == CS7 then BITS_DATA_7 else BITS_DATA_8
  }

  function ParityBits(c: Flags): Register {
    if !Has(c, PARENB) then BITS_PARITY_NONE
    else if Has(c, CMSPAR) then (if Has(c, PARODD) then BITS_PARITY_MARK else BITS_PARITY_SPACE)
    else if Has(c, PARODD) then BITS_PARITY_ODD else BITS_PARITY_EVEN
  }

  function StopBits(c: Flags): Register {
    if Has(c, CSTOPB) then BITS_STOP_2 else BITS_STOP_1
  }

  function UpdatedData(r: Register, c: Flags, d: Flags): Register {
    if Of(c, CSIZE) != Of(d, CSIZE) then Put(r, BITS_DATA_MASK, DataBits(c)) else r
  }

  function UpdatedParity(r: Register, c: Flags, d: Flags): Register {
    if Of(c, PARITY) != Of(d, PARITY) then Put(r, BITS_PARITY_MASK, ParityBits(c)) else r
  }

  function UpdatedStop(r: Register, c: Flags, d: Flags): Register {
    if Of(c, CSTOPB) != Of(d, CSTOPB) then Put(r, BITS_STOP_MASK, StopBits(c)) else r
  }

  /** The register after the flags went from `d` to `c`. */
  function Updated(r: Register, c: Flags, d: Flags): Register {
    UpdatedStop(UpdatedParity(UpdatedData(r, c, d), c, d), c, d)
  }

  /** Field by field, what encoding the flags means. */
  lemma EncodesByFields(r: Register, c: Flags)
    ensures Encodes(r, c) <==>
      Field(r, BITS_DATA_MASK) == DataBits(c) && Field(r, BITS_PARITY_MASK) == ParityBits(c) && Field(r, BITS_STOP_MASK) == StopBits(c)
  {
  }

  lemma ReplaceField(r: Register, mask: Register, value: Register, other: Register)
    requires Field(value, mask) == value && Field(other, mask) == 0
    ensures Field(Put(r, mask, value), mask) == value
    ensures Field(Put(r, mask, value), other) == Field(r, other)
  {
  }

  lemma ParityFromFlags(c: Flags, d: Flags)
    ensures Of(c, PARITY) == Of(d, PARITY) ==> ParityBits(c) == ParityBits(d)
    ensures Field(ParityBits(c), BITS_PARITY_MASK) == ParityBits(c)
  {
    assert c & PARENB == (Of(c, PARITY)) & PARENB && d & PARENB == (Of(d, PARITY)) & PARENB;
    assert c & PARODD == (Of(c, PARITY)) & PARODD && d & PARODD == (Of(d, PARITY)) & PARODD;
    assert c & CMSPAR == (Of(c, PARITY)) & CMSPAR && d & CMSPAR == (Of(d, PARITY)) & CMSPAR;
  }

  /** Rewriting one field leaves the others and the reserved bits alone. */
  lemma DataStage(r: Register, c: Flags, d: Flags)
    ensures
      var r1 := UpdatedData(r, c, d);
      && (Field(r, BITS_DATA_MASK) == DataBits(d) ==> Field(r1, BITS_DATA_MASK) == DataBits(c))
      && Field(r1, BITS_PARITY_MASK) == Field(r, BITS_PARITY_MASK)
      && Field(r1, BITS_STOP_MASK) == Field(r, BITS_STOP_MASK)
      && Field(r1, 0xf000) == Field(r, 0xf000)
  {
    ReplaceField(r, BITS_DATA_MASK, DataBits(c), BITS_PARITY_MASK);
    ReplaceField(r, BITS_DATA_MASK, DataBits(c), BITS_STOP_MASK);
    ReplaceField(r, BITS_DATA_MASK, DataBits(c), 0xf000);
  }

  lemma ParityStage(r: Register, c: Flags, d: Flags)
    ensures
      var r1 := UpdatedParity(r, c, d);
      && (Field(r, BITS_PARITY_MASK) == ParityBits(d) ==> Field(r1, BITS_PARITY_MASK) == ParityBits(c))
      && Field(r1, BITS_DATA_MASK) == Field(r, BITS_DATA_MASK)
      && Field(r1, BITS_STOP_MASK) == Field(r, BITS_STOP_MASK)
      && Field(r1, 0xf000) == Field(r, 0xf000)
  {
    ParityFromFlags(c, d);
    ReplaceField(r, BITS_PARITY_MASK, ParityBits(c), BITS_DATA_MASK);
    ReplaceField(r, BITS_PARITY_MASK, ParityBits(c), BITS_STOP_MASK);
    ReplaceField(r, BITS_PARITY_MASK, ParityBits(c), 0xf000);
  }

  lemma StopStage(r: Register, c: Flags, d: Flags)
    ensures
      var r1 := UpdatedStop(r, c, d);
      && (Field(r, BITS_STOP_MASK) == StopBits(d) ==> Field(r1, BITS_STOP_MASK) == StopBits(c))
      && Field(r1, BITS_DATA_MASK) == Field(r, BITS_DATA_MASK)
      && Field(r1, BITS_PARITY_MASK) == Field(r, BITS_PARITY_MASK)
      && Field(r1, 0xf000) == Field(r, 0xf000)
  {
    StopFromFlags(c, d);
    ReplaceField(r, BITS_STOP_MASK, StopBits(c), BITS_DATA_MASK);
    ReplaceField(r, BITS_STOP_MASK, StopBits(c), BITS_PARITY_MASK);
    ReplaceField(r, BITS_STOP_MASK, StopBits(c), 0xf000);
  }

  lemma StopFromFlags(c: Flags, d: Flags)
    ensures Of(c, CSTOPB) == Of(d, CSTOPB) ==> StopBits(c) == StopBits(d)
  {
  }

  /** A register that encodes the old settings encodes the new ones afterwards,
      although unchanged fields are left alone; the reserved bits never change. */
  lemma {:induction false} UpdatedEncodes(r: Register, c: Flags, d: Flags)
    ensures Encodes(r, d) ==> Encodes(Updated(r, c, d), c)
    ensures Field(Updated(r, c, d), 0xf000) == Field(r, 0xf000)
  {
    var r1 := UpdatedData(r, c, d);
    var r2 := UpdatedParity(r1, c, d);
    DataStage(r, c, d);
    ParityStage(r1, c, d);
    StopStage(r2, c, d);
    EncodesByFields(r, d);
    EncodesByFields(Updated(r, c, d), c);
  }

  // ---------------------------------------------------------------- specification of reading

  predicate DataSupported(r: Register) {
    Field(r, BITS_DATA_MASK) in {BITS_DATA_5, BITS_DATA_6, BITS_DATA_7, BITS_DATA_8}
  }

  predicate ParitySupported(r: Register) {
    Field(r, BITS_PARITY_MASK) <= BITS_PARITY_SPACE
  }

  predicate StopSupported(r: Register) {
    Field(r, BITS_STOP_MASK) in {BITS_STOP_1, BITS_STOP_2}
  }

  function NormalData(r: Register): Register {
    if DataSupported(r) then r else Put(r, BITS_DATA_MASK, BITS_DATA_8)
  }

  function NormalParity(r: Register): Register {
    if ParitySupported(r) then r else Without(r, BITS_PARITY_MASK)
  }

  function NormalStop(r: Register): Register {
    if StopSupported(r) then r else Without(r, BITS_STOP_MASK)
  }

  /** The register with every unsupported field replaced by its default. */
  function Normalised(r: Register): Register {
    NormalStop(NormalParity(NormalData(r)))
  }

  /** The number of fields that have to be replaced. */
  function Repairs(r: Register): nat {
    var r1 := NormalData(r);
    (if DataSupported(r) then 0 else 1) + (if ParitySupported(r1) then 0 else 1)
    + (if StopSupported(NormalParity(r1)) then 0 else 1)
  }

  function SizeFlags(r: Register, c: Flags): Flags {
    var data := Field(r, BITS_DATA_MASK);
    if data == BITS_DATA_5 then (c & !CSIZE) | CS5
    else if data == BITS_DATA_6 then (c & !CSIZE) | CS6
    else if data == BITS_DATA_7 then (c & !CSIZE) | CS7
    else (c & !CSIZE) | CS8
  }

  function ParityFlags(r: Register, c: Flags): Flags {
    var parity := Field(r, BITS_PARITY_MASK);
    if parity == BITS_PARITY_ODD then c | PARENB | PARODD
    else if parity == BITS_PARITY_EVEN then (c & !PARODD) | PARENB
    else if parity == BITS_PARITY_MARK then c | PARITY
    else if parity == BITS_PARITY_SPACE then (c & !PARODD) | PARENB | CMSPAR
    else c & !PARENB
  }

  function StopFlags(r: Register, c: Flags): Flags {
    if Field(r, BITS_STOP_MASK) == BITS_STOP_2 then c | CSTOPB else c & !CSTOPB
  }

  /** The flags read back over earlier flags `c`. */
  function ReadFlags(r: Register, c: Flags): Flags {
    var r1 := NormalData(r);
    StopFlags(NormalParity(r1), ParityFlags(r1, SizeFlags(r, c)))
  }

  /** Repairing a field leaves the other fields as they were. */
  lemma FieldsKept(r: Register)
    ensures Field(NormalData(r), BITS_PARITY_MASK) == Field(r, BITS_PARITY_MASK)
    ensures Field(NormalData(r), BITS_STOP_MASK) == Field(r, BITS_STOP_MASK)
    ensures Field(NormalParity(NormalData(r)), BITS_STOP_MASK) == Field(r, BITS_STOP_MASK)
    ensures Field(NormalParity(NormalData(r)), BITS_DATA_MASK) == Field(NormalData(r), BITS_DATA_MASK)
    ensures DataSupported(NormalData(r)) && ParitySupported(NormalParity(NormalData(r)))
  {
  }

  /** One read leaves a supported setting behind, so that the next one writes nothing,
      and it writes nothing itself exactly where the setting was supported already. */
  lemma {:induction false} ReadNormalises(r: Register)
    ensures SettingOfRegister(Normalised(r)).Setting?
    ensures Repairs(Normalised(r)) == 0
    ensures Repairs(r) == 0 <==> SettingOfRegister(r).Setting?
    ensures Repairs(r) == 0 ==> Normalised(r) == r
  {
    var r1 := NormalData(r);
    var r2 := NormalParity(r1);
    FieldsKept(r);
    StopRepairKeeps(r2);
  }

  lemma StopRepairKeeps(r: Register)
    ensures StopSupported(NormalStop(r))
    ensures Field(NormalStop(r), BITS_DATA_MASK) == Field(r, BITS_DATA_MASK)
    ensures Field(NormalStop(r), BITS_PARITY_MASK) == Field(r, BITS_PARITY_MASK)
  {
  }

  /** A read repairs and nothing else: supported fields and reserved bits stay, unsupported fields become
      8 data bits, no parity and one stop bit, with one write for each. */
  lemma {:induction false} ReadRepairsOnly(r: Register)
    ensures Field(Normalised(r), 0xf000) == Field(r, 0xf000)
    ensures Field(Normalised(r), 0x0f00) == if DataSupported(r) then Field(r, 0x0f00) else 0x0800
    ensures Field(Normalised(r), 0x00f0) == if ParitySupported(r) then Field(r, 0x00f0) else 0
    ensures Field(Normalised(r), 0x000f) == if StopSupported(r) then Field(r, 0x000f) else 0
    ensures Repairs(r) == One(!DataSupported(r)) + One(!ParitySupported(r)) + One(!StopSupported(r))
  {
    DataRepair(r);
    ParityRepair(NormalData(r));
    StopRepair(NormalParity(NormalData(r)));
  }

  lemma DataRepair(r: Register)
    ensures
      var n := NormalData(r);
      && Field(n, 0xf000) == Field(r, 0xf000) && Field(n, 0x00f0) == Field(r, 0x00f0) && Field(n, 0x000f) == Field(r, 0x000f)
      && Field(n, 0x0f00) == if DataSupported(r) then Field(r, 0x0f00) else 0x0800
  {
  }

  lemma ParityRepair(r: Register)
    ensures
      var n := NormalParity(r);
      && Field(n, 0xf000) == Field(r, 0xf000) && Field(n, 0x0f00) == Field(r, 0x0f00) && Field(n, 0x000f) == Field(r, 0x000f)
      && Field(n, 0x00f0) == if ParitySupported(r) then Field(r, 0x00f0) else 0
  {
  }

  lemma StopRepair(r: Register)
    ensures
      var n := NormalStop(r);
      && Field(n, 0xf000) == Field(r, 0xf000) && Field(n, 0x0f00) == Field(r, 0x0f00) && Field(n, 0x00f0) == Field(r, 0x00f0)
      && Field(n, 0x000f) == if StopSupported(r) then Field(r, 0x000f) else 0
  {
  }

  /** The flags agree but for size, parity and stop bits. */
  predicate SameOthers(c: Flags, d: Flags) { c & 0xBFFF_FC8F == d & 0xBFFF_FC8F }

  lemma SizeKeepsOthers(r: Register, c: Flags)
    ensures SameOthers(SizeFlags(r, c), c)
  {
    var data := Field(r, BITS_DATA_MASK);
    if data == BITS_DATA_5 {
      assert SameOthers((c & !CSIZE) | CS5, c);
    } else if data == BITS_DATA_6 {
      assert SameOthers((c & !CSIZE) | CS6, c);
    } else if data == BITS_DATA_7 {
      assert SameOthers((c & !CSIZE) | CS7, c);
    } else {
      assert SameOthers((c & !CSIZE) | CS8, c);
    }
  }

  lemma ParityKeepsOthers(r: Register, c: Flags)
    ensures SameOthers(ParityFlags(r, c), c)
  {
    var parity := Field(r, BITS_PARITY_MASK);
    if parity == BITS_PARITY_ODD {
      assert SameOthers(c | PARENB | PARODD, c);
    } else if parity == BITS_PARITY_EVEN {
      assert SameOthers((c & !PARODD) | PARENB, c);
    } else if parity == BITS_PARITY_MARK {
      assert SameOthers(c | PARITY, c);
    } else if parity == BITS_PARITY_SPACE {
      assert SameOthers((c & !PARODD) | PARENB | CMSPAR, c);
    } else {
      assert SameOthers(c & !PARENB, c);
    }
  }

  lemma StopKeepsOthers(r: Register, c: Flags)
    ensures SameOthers(StopFlags(r, c), c)
  {
    if Field(r, BITS_STOP_MASK) == BITS_STOP_2 {
      assert SameOthers(c | CSTOPB, c);
    } else {
      assert SameOthers(c & !CSTOPB, c);
    }
  }

  /** A read leaves all flags but those of size, parity and stop bits as they were. */
  lemma {:induction false} ReadKeepsOtherFlags(r: Register, c: Flags)
    ensures SameOthers(ReadFlags(r, c), c)
  {
    var r1 := NormalData(r);
    SizeKeepsOthers(r, c);
    ParityKeepsOthers(r1, SizeFlags(r, c));
    StopKeepsOthers(NormalParity(r1), ParityFlags(r1, SizeFlags(r, c)));
  }

  /** The flags read back express the setting the read leaves in the register, exactly unless a stale CMSPAR
      turns odd or even parity into mark or space. */
  lemma {:induction false} ReadBackExact(r: Register, c: Flags)
    ensures SettingOfRegister(Normalised(r)).Setting?
    ensures LineOfFlags(ReadFlags(r, c)) == SettingOfRegister(Normalised(r)).line
            <==> !(Has(c, CMSPAR) && Field(r, BITS_PARITY_MASK) in {BITS_PARITY_ODD, BITS_PARITY_EVEN})
  {
    ReadNormalises(r);
    FieldsKept(r);
    StopRepairKeeps(NormalParity(NormalData(r)));
  }

  /** Writing settings and reading them back from cleared parity flags recovers size, parity and stop bits. */
  lemma {:induction false} WriteReadRoundTrip(r: Register, old_c: Flags, c: Flags, before: Flags)
    requires Encodes(r, old_c) && before & PARITY == 0
    ensures LineOfFlags(ReadFlags(Updated(r, c, old_c), before)) == LineOfFlags(c)
  {
    UpdatedEncodes(r, c, old_c);
    ReadNormalises(Updated(r, c, old_c));
    ReadBackExact(Updated(r, c, old_c), before);
  }
}
