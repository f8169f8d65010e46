/**
 The RP1 pin driver (gpiochip_rp1.c, and the gpio_ functions of rp1lib.c): 54 pins share registers in three banks,
 yet behave as 54 independent pins.
 */
module Rp1Gpio {
  import opened Bytes

  const PINS: nat := 54
  /** Words in the register file. */
  const WORDS: nat := 0x4_0000

  /** A register word, as the set of its one bits: `|` is union, `&` intersection and `& ~` difference. */
  type Word = set<nat>

  type Fsel = nat

  const LAST_FUNC: Fsel := 8
  const INPUT: Fsel := 0x10
  const OUTPUT: Fsel := 0x11
  const GPIO: Fsel := 0x12
  const NONE: Fsel := 0x13
  const MAX: Fsel := 0x14

  const SYS_RIO: nat := 5
  const NULL_SEL: nat := 0x1f

  const FSEL_MASK: Word := {0, 1, 2, 3, 4}
  const OD: nat := 7
  const IE: nat := 6
  const PUE: nat := 3
  const PDE: nat := 2

  datatype Dir = In | Out

  const DRIVE_LOW: nat := 0
  const DRIVE_HIGH: nat := 1

  const PULL_NONE: nat := 0
  const PULL_DOWN: nat := 1
  const PULL_UP: nat := 2

  // ----- Where a pin's registers are -------------------------------------------------------------------------

  /** rp1_gpio_get_bank */
  function Bank(n: nat): (b: nat)
    requires n < PINS
    ensures b < 3
  {
    if n < 28 then 0 else if n < 34 then 1 else 2
  }

  function Offset(n: nat): (o: nat)
    requires n < PINS
    ensures o < 28
  {
    n - (if n < 28 then 0 else if n < 34 then 28 else 34)
  }

  function Io(bank: nat): (r: nat) { 0xd_0000 + bank * 0x4000 }
  function Rio(bank: nat): (r: nat) { 0xe_0000 + bank * 0x4000 }
  function Pads(bank: nat): (r: nat) { 0xf_0000 + bank * 0x4000 }

  function CtrlAt(n: nat): (a: nat)
    requires n < PINS
    ensures a < WORDS
  {
    (Io(Bank(n)) + (Offset(n) * 2 + 1) * 4) / 4
  }

  function PadAt(n: nat): (a: nat)
    requires n < PINS
    ensures a < WORDS
  {
    (Pads(Bank(n)) + 4 + Offset(n) * 4) / 4
  }

  function OutAt(n: nat): (a: nat)
    requires n < PINS
    ensures a < WORDS
  {
    Rio(Bank(n)) / 4
  }

  function OeAt(n: nat): (a: nat)
    requires n < PINS
    ensures a < WORDS
  {
    (Rio(Bank(n)) + 4) / 4
  }

  /** Pin, bank and offset, and control and pad register determine each other; the four kinds of register are apart. */
  lemma AddressesInjective(m: nat, n: nat)
    requires m < PINS && n < PINS
    ensures Bank(m) == Bank(n) && Offset(m) == Offset(n) <==> m == n
    ensures CtrlAt(m) == CtrlAt(n) <==> m == n
    ensures PadAt(m) == PadAt(n) <==> m == n
    ensures OutAt(m) == OutAt(n) <==> Bank(m) == Bank(n)
    ensures OeAt(m) == OeAt(n) <==> Bank(m) == Bank(n)
    ensures CtrlAt(m) != PadAt(n) && CtrlAt(m) != OutAt(n) && CtrlAt(m) != OeAt(n)
    ensures PadAt(m) != OutAt(n) && PadAt(m) != OeAt(n) && OutAt(m) != OeAt(n)
  {
  }

  /** The byte addresses: three banks of 28, 6 and 20 pins, 16 KiB apart in each block of registers. */
  lemma Addresses(n: nat)
    requires n < PINS
    ensures n < 28 ==> CtrlAt(n) * 4 == 0xd_0004 + 8 * n && PadAt(n) * 4 == 0xf_0004 + 4 * n
                       && OutAt(n) * 4 == 0xe_0000 && OeAt(n) * 4 == 0xe_0004 && Offset(n) == n
    ensures 28 <= n < 34 ==> CtrlAt(n) * 4 == 0xd_4004 + 8 * (n - 28) && PadAt(n) * 4 == 0xf_4004 + 4 * (n - 28)
                             && OutAt(n) * 4 == 0xe_4000 && OeAt(n) * 4 == 0xe_4004 && Offset(n) == n - 28
    ensures 34 <= n ==> CtrlAt(n) * 4 == 0xd_8004 + 8 * (n - 34) && PadAt(n) * 4 == 0xf_8004 + 4 * (n - 34)
                        && OutAt(n) * 4 == 0xe_8000 && OeAt(n) * 4 == 0xe_8004 && Offset(n) == n - 34
  {
  }

  // ----- The function field ----------------------------------------------------------------------------------

  function BitOf(v: nat, weight: nat, o: nat): (r: Word)
    requires weight > 0
  {
    if v / weight % 2 == 1 then {o} else {}
  }

  /** The bits of a function number. */
  function Encode(v: nat): (r: Word)
    requires v < 32
  {
    BitOf(v, 1, 0) + BitOf(v, 2, 1) + BitOf(v, 4, 2) + BitOf(v, 8, 3) + BitOf(v, 16, 4)
  }

  function WeightOf(w: Word, o: nat, weight: nat): (r: nat) {
    if o in w then weight else 0
  }

  function Decode(w: Word): (v: nat)
    ensures v < 32
  {
    WeightOf(w, 0, 1) + WeightOf(w, 1, 2) + WeightOf(w, 2, 4) + WeightOf(w, 3, 8) + WeightOf(w, 4, 16)
  }

  lemma Digits(v: nat)
    requires v < 32
    ensures v == v % 2 + 2 * (v / 2 % 2) + 4 * (v / 4 % 2) + 8 * (v / 8 % 2) + 16 * (v / 16 % 2)
  {
  }

  lemma DecodeEncode(w: Word, v: nat)
    requires v < 32
    ensures Decode(((w - FSEL_MASK) + Encode(v)) * FSEL_MASK) == v
  {
    Digits(v);
  }

  /** The five bits of the field are those of `v`. */
  ghost predicate FieldIs(w: Word, v: nat) {
    forall o :: 0 <= o < 5 ==> (o in w <==> HasBit(v, o))
  }

  lemma LowBits(v: nat)
    ensures HasBit(v, 0) <==> v % 2 == 1
    ensures HasBit(v, 1) <==> v / 2 % 2 == 1
    ensures HasBit(v, 2) <==> v / 4 % 2 == 1
    ensures HasBit(v, 3) <==> v / 8 % 2 == 1
    ensures HasBit(v, 4) <==> v / 16 % 2 == 1
  {
    assert v / 2 / 2 == v / 4 && v / 4 / 2 == v / 8 && v / 8 / 2 == v / 16;
    assert HasBit(v, 2) <==> HasBit(v / 4, 0);
    assert HasBit(v, 3) <==> HasBit(v / 4, 1);
    assert HasBit(v, 4) <==> HasBit(v / 4, 2);
    assert HasBit(v / 4, 2) <==> HasBit(v / 16, 0);
  }

  /** A function number is written with its own bits, and read by them. */
  lemma FieldBits(w: Word, v: nat)
    requires v < 32
    ensures FieldIs((w - FSEL_MASK) + Encode(v), v)
    ensures FieldIs(w, v) ==> Decode(w * FSEL_MASK) == v
  {
    LowBits(v);
    if FieldIs(w, v) {
      Digits(v);
    }
  }

  // ----- The register file -----------------------------------------------------------------------------------

  /** Writing to the second and third alias of a RIO block sets and clears bits; elsewhere a write is a write. */
  function Written(mem: seq<Word>, peri: nat, reg: nat, value: Word): (r: seq<Word>)
    requires |mem| == WORDS && (peri + reg) / 4 < WORDS
    requires IsRio(peri) ==> reg < 0x4000
    ensures |r| == WORDS
  {
    var a := (peri + reg) / 4;
    if IsRio(peri) && 0x2000 <= reg < 0x3000 then
      var t := (peri + (reg - 0x2000)) / 4;
      mem[t := mem[t] + value]
    else if IsRio(peri) && 0x3000 <= reg then
      var t := (peri + (reg - 0x3000)) / 4;
      mem[t := mem[t] - value]
    else mem[a := value]
  }

  predicate IsRio(peri: nat) {
    peri == Rio(0) || peri == Rio(1) || peri == Rio(2)
  }

  /** What is kept of one pin. */
  datatype PinRegs = PinRegs(ctrl: Word, pad: Word, out: bool, oe: bool)

  function View(mem: seq<Word>, n: nat): (r: PinRegs)
    requires |mem| == WORDS && n < PINS
  {
    PinRegs(mem[CtrlAt(n)], mem[PadAt(n)], Offset(n) in mem[OutAt(n)], Offset(n) in mem[OeAt(n)])
  }

  // ----- Setters ---------------------------------------------------------------------------------------------

  function DirSet(mem: seq<Word>, n: nat, dir: Dir): (r: seq<Word>)
    requires |mem| == WORDS && n < PINS
    ensures |r| == WORDS
  {
    Written(mem, Rio(Bank(n)), 0x4 + (if dir == Out then 0x2000 else 0x3000), {Offset(n)})
  }

  function DriveSet(mem: seq<Word>, n: nat, drive: nat): (r: seq<Word>)
    requires |mem| == WORDS && n < PINS
    ensures |r| == WORDS
  {
    if drive == DRIVE_HIGH then Written(mem, Rio(Bank(n)), 0x2000, {Offset(n)})
    else if drive == DRIVE_LOW then Written(mem, Rio(Bank(n)), 0x3000, {Offset(n)})
    else mem
  }

  function PulledPad(pad: Word, pull: nat): (r: Word) {
    var off := pad - {PDE, PUE};
    if pull == PULL_UP then off + {PUE} else if pull == PULL_DOWN then off + {PDE} else off
  }

  function PullSet(mem: seq<Word>, n: nat, pull: nat): (r: seq<Word>)
    requires |mem| == WORDS && n < PINS
    ensures |r| == WORDS
  {
    mem[PadAt(n) := PulledPad(mem[PadAt(n)], pull)]
  }

  predicate IsFunction(func: Fsel) {
    func <= LAST_FUNC || INPUT <= func <= NONE
  }

  function Select(func: Fsel): (sel: nat)
    requires IsFunction(func)
    ensures sel < 32
  {
    if func <= LAST_FUNC then func else if func == NONE then NULL_SEL else SYS_RIO
  }

  /** Input is enabled and output not disabled, unless no function is selected. */
  function SelectedPad(pad: Word, sel: nat): (r: Word) {
    if sel == NULL_SEL then (pad - {IE}) + {OD} else (pad + {IE}) - {OD}
  }

  function FselSet(mem: seq<Word>, n: nat, func: Fsel): (r: seq<Word>)
    requires |mem| == WORDS && n < PINS
    ensures |r| == WORDS
  {
    if !IsFunction(func) then mem
    else
      var directed := if func == INPUT then DirSet(mem, n, In) else if func == OUTPUT then DirSet(mem, n, Out) else mem;
      var selected := directed[CtrlAt(n) := (directed[CtrlAt(n)] - FSEL_MASK) + Encode(Select(func))];
      selected[PadAt(n) := SelectedPad(selected[PadAt(n)], Select(func))]
  }

  // ----- Getters ---------------------------------------------------------------------------------------------

  function DirOf(v: PinRegs): (r: Dir) {
    if v.oe then Out else In
  }

  function DriveOf(v: PinRegs): (r: nat) {
    if v.out then DRIVE_HIGH else DRIVE_LOW
  }

  function PullOf(v: PinRegs): (r: nat) {
    if PUE in v.pad then PULL_UP else if PDE in v.pad then PULL_DOWN else PULL_NONE
  }

  function FselOf(v: PinRegs): (r: Fsel) {
    var sel := Decode(v.ctrl * FSEL_MASK);
    if sel == SYS_RIO then GPIO else if sel == NULL_SEL then NONE else if sel <= LAST_FUNC then sel else MAX
  }

  // ----- One pin at a time -----------------------------------------------------------------------------------

  /** From `before` to `after` pin `n` got the registers `v`, and nothing else changed. */
  ghost predicate OnlyPin(before: seq<Word>, after: seq<Word>, n: nat, v: PinRegs)
    requires |before| == WORDS && |after| == WORDS && n < PINS
  {
    && View(after, n) == v
    && (forall m :: 0 <= m < PINS && m != n ==> View(after, m) == View(before, m))
    && (forall a :: 0 <= a < WORDS && a !in {CtrlAt(n), PadAt(n), OutAt(n), OeAt(n)} ==> after[a] == before[a])
    && after[OutAt(n)] - {Offset(n)} == before[OutAt(n)] - {Offset(n)}
    && after[OeAt(n)] - {Offset(n)} == before[OeAt(n)] - {Offset(n)}
  }

  lemma DirSetPin(mem: seq<Word>, n: nat, dir: Dir)
    requires |mem| == WORDS && n < PINS
    ensures OnlyPin(mem, DirSet(mem, n, dir), n, View(mem, n).(oe := dir == Out))
  {
    hide Offset;
    hide Bank;
    forall m | 0 <= m < PINS && m != n ensures View(DirSet(mem, n, dir), m) == View(mem, m) {
      AddressesInjective(m, n);
      AddressesInjective(n, m);
    }
    AddressesInjective(n, n);
  }

  lemma DriveSetPin(mem: seq<Word>, n: nat, drive: nat)
    requires |mem| == WORDS && n < PINS
    ensures OnlyPin(mem, DriveSet(mem, n, drive), n,
                    if drive == DRIVE_HIGH || drive == DRIVE_LOW then View(mem, n).(out := drive == DRIVE_HIGH)
                    else View(mem, n))
  {
    forall m | 0 <= m < PINS && m != n ensures View(DriveSet(mem, n, drive), m) == View(mem, m) {
      AddressesInjective(m, n);
      AddressesInjective(n, m);
    }
    AddressesInjective(n, n);
  }

  /** The registers of a pin once a function is selected. */
  function Selected(v: PinRegs, func: Fsel): (r: PinRegs) {
    if !IsFunction(func) then v
    else PinRegs((v.ctrl - FSEL_MASK) + Encode(Select(func)), SelectedPad(v.pad, Select(func)), v.out,
                 if func == INPUT then false else if func == OUTPUT then true else v.oe)
  }

  /** Nothing but the function field, input enable, output disable, and the direction where it is asked for. */
  lemma SelectedKeeps(v: PinRegs, func: Fsel)
    ensures var w := Selected(v, func);
            && w.ctrl - FSEL_MASK == v.ctrl - FSEL_MASK && w.pad - {IE, OD} == v.pad - {IE, OD} && w.out == v.out
            && (func != INPUT && func != OUTPUT ==> w.oe == v.oe)
  {
    if IsFunction(func) {
      EncodeInField(Select(func));
    }
  }

  lemma EncodeInField(v: nat)
    requires v < 32
    ensures Encode(v) <= FSEL_MASK
  {
  }

  lemma StepPin(a: seq<Word>, b: seq<Word>, c: seq<Word>, n: nat, v: PinRegs, w: PinRegs)
    requires |a| == WORDS && |b| == WORDS && |c| == WORDS && n < PINS && OnlyPin(a, b, n, v) && OnlyPin(b, c, n, w)
    ensures OnlyPin(a, c, n, w)
  {
  }

  lemma CtrlSetPin(mem: seq<Word>, n: nat, w: Word)
    requires |mem| == WORDS && n < PINS
    ensures OnlyPin(mem, mem[CtrlAt(n) := w], n, View(mem, n).(ctrl := w))
  {
    forall m | 0 <= m < PINS && m != n ensures View(mem[CtrlAt(n) := w], m) == View(mem, m) {
      AddressesInjective(m, n);
      AddressesInjective(n, m);
    }
    AddressesInjective(n, n);
  }

  lemma PadSetPin(mem: seq<Word>, n: nat, w: Word)
    requires |mem| == WORDS && n < PINS
    ensures OnlyPin(mem, mem[PadAt(n) := w], n, View(mem, n).(pad := w))
  {
    forall m | 0 <= m < PINS && m != n ensures View(mem[PadAt(n) := w], m) == View(mem, m) {
      AddressesInjective(m, n);
      AddressesInjective(n, m);
    }
    AddressesInjective(n, n);
  }

  lemma SamePin(mem: seq<Word>, n: nat)
    requires |mem| == WORDS && n < PINS
    ensures OnlyPin(mem, mem, n, View(mem, n))
  {
  }

  lemma FselSetPin(mem: seq<Word>, n: nat, func: Fsel)
    requires |mem| == WORDS && n < PINS
    ensures OnlyPin(mem, FselSet(mem, n, func), n, Selected(View(mem, n), func))
  {
    SamePin(mem, n);
    if IsFunction(func) {
      var v := View(mem, n);
      var directed := if func == INPUT then DirSet(mem, n, In) else if func == OUTPUT then DirSet(mem, n, Out) else mem;
      DirSetPin(mem, n, In);
      DirSetPin(mem, n, Out);
      var w := (directed[CtrlAt(n)] - FSEL_MASK) + Encode(Select(func));
      var selected := directed[CtrlAt(n) := w];
      CtrlSetPin(directed, n, w);
      StepPin(mem, directed, selected, n, View(directed, n), View(selected, n));
      PadSetPin(selected, n, SelectedPad(selected[PadAt(n)], Select(func)));
      StepPin(mem, selected, FselSet(mem, n, func), n, View(selected, n), View(FselSet(mem, n, func), n));
    }
  }

  // ----- Pins as the callers see them ------------------------------------------------------------------------

  /** What the getters tell, with input enable and output disable of the pad. */
  datatype Pin = Pin(fsel: Fsel, dir: Dir, drive: nat, pull: nat, ie: bool, od: bool)

  datatype Op = SetFsel(n: nat, func: Fsel) | SetDir(n: nat, dir: Dir) | SetDrive(n: nat, drive: nat)
             | SetPull(n: nat, pull: nat)

  function PinOf(v: PinRegs): (r: Pin) {
    Pin(FselOf(v), DirOf(v), DriveOf(v), PullOf(v), IE in v.pad, OD in v.pad)
  }

  /** A pin of its own: each setter sets what its getter says, function 5 being the name of plain GPIO. */
  function Set(p: Pin, op: Op): (r: Pin) {
    match op
    case SetFsel(_, func) =>
      if !IsFunction(func) then p
      else
        p.(fsel := if func == SYS_RIO || func == INPUT || func == OUTPUT then GPIO else func,
           dir := if func == INPUT then In else if func == OUTPUT then Out else p.dir,
           ie := func != NONE, od := func == NONE)
    case SetDir(_, dir) => p.(dir := dir)
    case SetDrive(_, drive) => if drive == DRIVE_HIGH || drive == DRIVE_LOW then p.(drive := drive) else p
    case SetPull(_, pull) => p.(pull := if pull == PULL_UP || pull == PULL_DOWN then pull else PULL_NONE)
  }

  function Do(mem: seq<Word>, op: Op): (r: seq<Word>)
    requires |mem| == WORDS && op.n < PINS
    ensures |r| == WORDS
  {
    match op
    case SetFsel(n, func) => FselSet(mem, n, func)
    case SetDir(n, dir) => DirSet(mem, n, dir)
    case SetDrive(n, drive) => DriveSet(mem, n, drive)
    case SetPull(n, pull) => PullSet(mem, n, pull)
  }

  lemma SelectedPin(v: PinRegs, n: nat, func: Fsel)
    ensures PinOf(Selected(v, func)) == Set(PinOf(v), SetFsel(n, func))
  {
    if IsFunction(func) {
      DecodeEncode(v.ctrl, Select(func));
      assert PullOf(Selected(v, func)) == PullOf(v);
    }
  }

  /** One call does to its pin what it should, as its getters tell, and nothing to any other. */
  lemma DoOne(mem: seq<Word>, op: Op, m: nat)
    requires |mem| == WORDS && op.n < PINS && m < PINS
    ensures PinOf(View(Do(mem, op), m)) == if m == op.n then Set(PinOf(View(mem, m)), op) else PinOf(View(mem, m))
  {
    match op {
      case SetFsel(n, func) =>
        FselSetPin(mem, n, func);
        SelectedPin(View(mem, n), n, func);
      case SetDir(n, dir) =>
        DirSetPin(mem, n, dir);
      case SetDrive(n, drive) =>
        DriveSetPin(mem, n, drive);
      case SetPull(n, pull) =>
        PadSetPin(mem, n, PulledPad(mem[PadAt(n)], pull));
    }
  }

  predicate OnPins(ops: seq<Op>) {
    forall i :: 0 <= i < |ops| ==> ops[i].n < PINS
  }

  function DoAll(mem: seq<Word>, ops: seq<Op>): (r: seq<Word>)
    requires |mem| == WORDS && OnPins(ops)
    ensures |r| == WORDS
  {
    if ops == [] then mem else Do(DoAll(mem, ops[..|ops| - 1]), ops[|ops| - 1])
  }

  /** One pin, given the calls on it alone. */
  function SetAll(p: Pin, ops: seq<Op>, m: nat): (r: Pin) {
    if ops == [] then p
    else
      var q, op := SetAll(p, ops[..|ops| - 1], m), ops[|ops| - 1];
      if op.n == m then Set(q, op) else q
  }

  /** The register file refines 54 independent pins, over any sequence of calls. */
  lemma {:induction false} PinsIndependent(mem: seq<Word>, ops: seq<Op>, m: nat)
    requires |mem| == WORDS && OnPins(ops) && m < PINS
    ensures PinOf(View(DoAll(mem, ops), m)) == SetAll(PinOf(View(mem, m)), ops, m)
  {
    if ops != [] {
      var before := ops[..|ops| - 1];
      PinsIndependent(mem, before, m);
      DoOne(DoAll(mem, before), ops[|ops| - 1], m);
    }
  }

  // ----- rp1lib ----------------------------------------------------------------------------------------------

  /** gpio_get_fsel tells plain GPIO pins apart by direction. */
  function LibFsel(p: Pin): (r: Fsel) {
    if p.fsel == GPIO then (if p.dir == Out then OUTPUT else INPUT) else p.fsel
  }

  /** What was set last is what gpio_get_fsel says; plain GPIO reads as the direction it keeps. */
  lemma LibFselRoundTrip(mem: seq<Word>, n: nat, func: Fsel)
    requires |mem| == WORDS && n < PINS && IsFunction(func)
    ensures var p := PinOf(View(FselSet(mem, n, func), n));
            if func == GPIO || func == SYS_RIO then
              LibFsel(p) == (if PinOf(View(mem, n)).dir == Out then OUTPUT else INPUT)
            else LibFsel(p) == func
  {
    DoOne(mem, SetFsel(n, func), n);
  }

  // ----- The code --------------------------------------------------------------------------------------------

  /** Pin `n` is an output driven to `drive`, and no other pin changed. */
  ghost predicate Driven(before: seq<Word>, after: seq<Word>, n: nat, drive: nat)
    requires |before| == WORDS && |after| == WORDS && n < PINS
  {
    && PinOf(View(after, n)) == PinOf(View(before, n)).(drive := drive, dir := Out)
    && forall m :: 0 <= m < PINS && m != n ==> PinOf(View(after, m)) == PinOf(View(before, m))
  }

  class Rp1Chip {
    const regs: array<Word>

    constructor ()
      ensures regs.Length == WORDS && fresh(regs)
    {
      regs := new Word[WORDS](i => {});
    }

    method Write32(peri: nat, reg: nat, value: Word)
      requires regs.Length == WORDS && (peri + reg) / 4 < WORDS && (IsRio(peri) ==> reg < 0x4000)
      modifies regs
      ensures regs[..] == Written(old(regs[..]), peri, reg, value)
    {
      if IsRio(peri) && 0x2000 <= reg < 0x3000 {
        var t := (peri + (reg - 0x2000)) / 4;
        regs[t] := regs[t] + value;
      } else if IsRio(peri) && 0x3000 <= reg {
        var t := (peri + (reg - 0x3000)) / 4;
        regs[t] := regs[t] - value;
      } else {
        regs[(peri + reg) / 4] := value;
      }
    }

    method GetBank(n: nat) returns (bank: nat, offset: nat)
      requires n < PINS
      ensures bank == Bank(n) && offset == Offset(n)
    {
      if n < 28 {
        bank := 0;
      } else if n < 34 {
        bank := 1;
      } else {
        bank := 2;
      }
      offset := n - (if bank == 0 then 0 else if bank == 1 then 28 else 34);
    }

    method SetDir(n: nat, dir: Dir)
      requires regs.Length == WORDS && n < PINS
      modifies regs
      ensures regs[..] == DirSet(old(regs[..]), n, dir)
      ensures Offset(n) in regs[OeAt(n)] <==> dir == Out
      ensures regs[OeAt(n)] - {Offset(n)} == old(regs[OeAt(n)]) - {Offset(n)}
      ensures forall a :: 0 <= a < WORDS && a != OeAt(n) ==> regs[a] == old(regs[a])
    {
      var bank, offset := GetBank(n);
      if dir == In {
        Write32(Rio(bank), 0x4 + 0x3000, {offset});
      } else {
        Write32(Rio(bank), 0x4 + 0x2000, {offset});
      }
    }

    method GetDir(n: nat) returns (dir: Dir)
      requires regs.Length == WORDS && n < PINS
      ensures dir == PinOf(View(regs[..], n)).dir
      ensures dir == Out <==> Offset(n) in regs[OeAt(n)]
    {
      var bank, offset := GetBank(n);
      dir := if offset in regs[(Rio(bank) + 0x4) / 4] then Out else In;
    }

    method GetFsel(n: nat) returns (fsel: Fsel)
      requires regs.Length == WORDS && n < PINS
      ensures fsel == PinOf(View(regs[..], n)).fsel
      ensures forall v :: 0 <= v < 32 && FieldIs(regs[CtrlAt(n)], v) ==>
                fsel == if v == 5 then GPIO else if v == 31 then NONE else if v <= 8 then v else MAX
    {
      forall v | 0 <= v < 32 && FieldIs(regs[CtrlAt(n)], v) ensures Decode(regs[CtrlAt(n)] * FSEL_MASK) == v {
        FieldBits(regs[CtrlAt(n)], v);
      }
      var bank, offset := GetBank(n);
      var rsel := Decode(regs[(Io(bank) + (offset * 2 + 1) * 4) / 4] * FSEL_MASK);
      if rsel == SYS_RIO {
        fsel := GPIO;
      } else if rsel == NULL_SEL {
        fsel := NONE;
      } else if rsel <= LAST_FUNC {
        fsel := rsel;
      } else {
        fsel := MAX;
      }
    }

    method SetFsel(n: nat, func: Fsel)
      requires regs.Length == WORDS && n < PINS
      modifies regs
      ensures regs[..] == FselSet(old(regs[..]), n, func)
      ensures !IsFunction(func) ==> regs[..] == old(regs[..])
      ensures IsFunction(func) ==>
                && FieldIs(regs[CtrlAt(n)], if func <= 8 then func else if func == NONE then 31 else 5)
                && (IE in regs[PadAt(n)] <==> func != NONE) && (OD in regs[PadAt(n)] <==> func == NONE)
                && (Offset(n) in regs[OeAt(n)] <==>
                    func == OUTPUT || (func != INPUT && Offset(n) in old(regs[OeAt(n)])))
    {
      var rsel;
      if func <= LAST_FUNC {
        rsel := func;
      } else if func == INPUT || func == OUTPUT || func == GPIO {
        rsel := SYS_RIO;
      } else if func == NONE {
        rsel := NULL_SEL;
      } else {
        return;
      }
      if func == INPUT {
        SetDir(n, In);
      } else if func == OUTPUT {
        SetDir(n, Out);
      }
      SelectFunction(n, rsel);
    }

    /** The control and pad registers for function number `rsel`; the pad is written only if it changes. */
    method SelectFunction(n: nat, rsel: nat)
      requires regs.Length == WORDS && n < PINS && rsel < 32
      modifies regs
      ensures var ctrl := old(regs[..])[CtrlAt(n) := (old(regs[CtrlAt(n)]) - FSEL_MASK) + Encode(rsel)];
              regs[..] == ctrl[PadAt(n) := SelectedPad(ctrl[PadAt(n)], rsel)]
      ensures FieldIs(regs[CtrlAt(n)], rsel) && regs[OeAt(n)] == old(regs[OeAt(n)])
      ensures (IE in regs[PadAt(n)] <==> rsel != 31) && (OD in regs[PadAt(n)] <==> rsel == 31)
    {
      AddressesInjective(n, n);
      FieldBits(regs[CtrlAt(n)], rsel);
      var bank, offset := GetBank(n);
      var c, p := (Io(bank) + (offset * 2 + 1) * 4) / 4, (Pads(bank) + 4 + offset * 4) / 4;
      regs[c] := (regs[c] - FSEL_MASK) + Encode(rsel);
      var pad := regs[p];
      if rsel == NULL_SEL {
        pad := pad - {IE};
      } else {
        pad := pad + {IE};
      }
      if rsel != NULL_SEL {
        pad := pad - {OD};
      } else {
        pad := pad + {OD};
      }
      if pad != regs[p] {
        regs[p] := pad;
      }
    }

    method SetDrive(n: nat, drive: nat)
      requires regs.Length == WORDS && n < PINS
      modifies regs
      ensures regs[..] == DriveSet(old(regs[..]), n, drive)
      ensures Offset(n) in regs[OutAt(n)] <==>
              drive == DRIVE_HIGH || (drive != DRIVE_LOW && Offset(n) in old(regs[OutAt(n)]))
      ensures regs[OutAt(n)] - {Offset(n)} == old(regs[OutAt(n)]) - {Offset(n)}
      ensures forall a :: 0 <= a < WORDS && a != OutAt(n) ==> regs[a] == old(regs[a])
    {
      var bank, offset := GetBank(n);
      if drive == DRIVE_HIGH {
        Write32(Rio(bank), 0x2000, {offset});
      } else if drive == DRIVE_LOW {
        Write32(Rio(bank), 0x3000, {offset});
      }
    }

    method GetDrive(n: nat) returns (drive: nat)
      requires regs.Length == WORDS && n < PINS
      ensures drive == PinOf(View(regs[..], n)).drive
      ensures drive == if Offset(n) in regs[OutAt(n)] then DRIVE_HIGH else DRIVE_LOW
    {
      var bank, offset := GetBank(n);
      drive := if offset in regs[Rio(bank) / 4] then DRIVE_HIGH else DRIVE_LOW;
    }

    method SetPull(n: nat, pull: nat)
      requires regs.Length == WORDS && n < PINS
      modifies regs
      ensures regs[..] == PullSet(old(regs[..]), n, pull)
      ensures (PUE in regs[PadAt(n)] <==> pull == PULL_UP) && (PDE in regs[PadAt(n)] <==> pull == PULL_DOWN)
      ensures regs[PadAt(n)] - {PUE, PDE} == old(regs[PadAt(n)]) - {PUE, PDE}
      ensures forall a :: 0 <= a < WORDS && a != PadAt(n) ==> regs[a] == old(regs[a])
    {
      var bank, offset := GetBank(n);
      var p := (Pads(bank) + 4 + offset * 4) / 4;
      var pad := regs[p] - {PDE, PUE};
      if pull == PULL_UP {
        pad := pad + {PUE};
      } else if pull == PULL_DOWN {
        pad := pad + {PDE};
      }
      regs[p] := pad;
    }

    method GetPull(n: nat) returns (pull: nat)
      requires regs.Length == WORDS && n < PINS
      ensures pull == PinOf(View(regs[..], n)).pull
      ensures pull == if PUE in regs[PadAt(n)] then PULL_UP else if PDE in regs[PadAt(n)] then PULL_DOWN else PULL_NONE
    {
      var bank, offset := GetBank(n);
      var pad := regs[(Pads(bank) + 4 + offset * 4) / 4];
      pull := if PUE in pad then PULL_UP else if PDE in pad then PULL_DOWN else PULL_NONE;
    }

    method GpioGetFsel(n: nat) returns (fsel: Fsel)
      requires regs.Length == WORDS && n < PINS
      ensures fsel == LibFsel(PinOf(View(regs[..], n)))
    {
      fsel := GetFsel(n);
      if fsel == GPIO {
        var dir := GetDir(n);
        fsel := if dir == Out then OUTPUT else INPUT;
      }
    }

    /** gpio_set: driven high before it becomes an output, so that it never drives low on the way. */
    method GpioSet(n: nat)
      requires regs.Length == WORDS && n < PINS
      modifies regs
      ensures regs[..] == DoAll(old(regs[..]), [Op.SetDrive(n, DRIVE_HIGH), Op.SetDir(n, Out)])
      ensures Driven(old(regs[..]), regs[..], n, DRIVE_HIGH)
      ensures Offset(n) in regs[OutAt(n)] && Offset(n) in regs[OeAt(n)]
    {
      AddressesInjective(n, n);
      DriveThenOutput(regs[..], n, DRIVE_HIGH);
      SetDrive(n, DRIVE_HIGH);
      SetDir(n, Out);
    }

    method GpioClear(n: nat)
      requires regs.Length == WORDS && n < PINS
      modifies regs
      ensures regs[..] == DoAll(old(regs[..]), [Op.SetDrive(n, DRIVE_LOW), Op.SetDir(n, Out)])
      ensures Driven(old(regs[..]), regs[..], n, DRIVE_LOW)
      ensures Offset(n) !in regs[OutAt(n)] && Offset(n) in regs[OeAt(n)]
    {
      AddressesInjective(n, n);
      DriveThenOutput(regs[..], n, DRIVE_LOW);
      SetDrive(n, DRIVE_LOW);
      SetDir(n, Out);
    }
  }

  lemma DriveThenOutput(mem: seq<Word>, n: nat, drive: nat)
    requires |mem| == WORDS && n < PINS && (drive == DRIVE_HIGH || drive == DRIVE_LOW)
    ensures var after := DirSet(DriveSet(mem, n, drive), n, Out);
            && after == DoAll(mem, [Op.SetDrive(n, drive), Op.SetDir(n, Out)])
            && Driven(mem, after, n, drive)
  {
    var ops := [Op.SetDrive(n, drive), Op.SetDir(n, Out)];
    assert ops[..1][..0] == [];
    assert DoAll(mem, ops[..1]) == DriveSet(mem, n, drive);
    forall m | 0 <= m < PINS
      ensures PinOf(View(DirSet(DriveSet(mem, n, drive), n, Out), m))
              == if m == n then PinOf(View(mem, m)).(drive := drive, dir := Out) else PinOf(View(mem, m))
    {
      DoOne(mem, Op.SetDrive(n, drive), m);
      DoOne(DriveSet(mem, n, drive), Op.SetDir(n, Out), m);
    }
  }
}
