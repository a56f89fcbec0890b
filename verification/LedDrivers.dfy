/**
 The two LED character drivers, chapter9/ex9-1/gpio_module.c (raw registers) and
 chapter9/ex9-2/gpiocall_module.c (kernel GPIO calls).

 Both keep the last message written and append a suffix to it on every read.  The register
 driver is modelled down to its 32-bit registers, with the write-one-to-set and
 write-one-to-clear behaviour of section 6.1 of BCM2835 ARM Peripherals.
 */
module LedDrivers {
  import opened CStrings

  const LED_BIT: bv32 := 1 << 18
  const REGISTER_SUFFIX := " from Kernel"
  const CALL_SUFFIX := "from kernel"

  // ---------- function-select registers ----------

  // Ten three-bit fields to a register; g % 10 as a bit-vector.
  function Slot(g: nat): (k: bv32)
    ensures k < 10
  {
    match g % 10
    case 0 => 0
    case 1 => 1
    case 2 => 2
    case 3 => 3
    case 4 => 4
    case 5 => 5
    case 6 => 6
    case 7 => 7
    case 8 => 8
    case _ => 9
  }

  function AsInput(reg: bv32, k: bv32): bv32
    requires k < 10
  {
    reg & !(7 << (k * 3))
  }

  function AsOutput(reg: bv32, k: bv32): bv32
    requires k < 10
  {
    reg | (1 << (k * 3))
  }

  function Field(reg: bv32, k: bv32): bv32
    requires k < 10
  {
    (reg >> (k * 3)) & 7
  }

  lemma FieldIsMasked(x: bv32, y: bv32, j: bv32)
    requires j < 10 && x & (7 << (j * 3)) == y & (7 << (j * 3))
    ensures Field(x, j) == Field(y, j)
  {
  }

  lemma FieldsDisjoint(k: bv32, j: bv32)
    requires j < 10 && k < 10 && j != k
    ensures (7 as bv32 << (j * 3)) & (7 as bv32 << (k * 3)) == 0
    ensures (7 as bv32 << (j * 3)) & (1 as bv32 << (k * 3)) == 0
  {
  }

  lemma OutsideMask(x: bv32, m: bv32, a: bv32, b: bv32)
    requires m & a == 0 && m & b == 0
    ensures ((x & !a) | b) & m == x & m
  {
  }

  lemma FieldCleared(reg: bv32, k: bv32)
    requires k < 10
    ensures Field(AsInput(reg, k), k) == 0 && AsInput(reg, k) & 0xC000_0000 == reg & 0xC000_0000
  {
  }

  lemma FieldRaised(reg: bv32, k: bv32)
    requires k < 10
    ensures Field(AsOutput(reg, k), k) == Field(reg, k) | 1 && AsOutput(reg, k) & 0xC000_0000 == reg & 0xC000_0000
  {
  }

  lemma OtherFieldsKept(reg: bv32, k: bv32, j: bv32)
    requires k < 10 && j < 10 && j != k
    ensures Field(AsInput(reg, k), j) == Field(reg, j)
    ensures Field(AsOutput(reg, k), j) == Field(reg, j)
  {
    FieldsDisjoint(k, j);
    OutsideMask(reg, 7 << (j * 3), 7 << (k * 3), 0);
    FieldIsMasked(AsInput(reg, k), reg, j);
    OutsideMask(reg, 7 << (j * 3), 0, 1 << (k * 3));
    FieldIsMasked(AsOutput(reg, k), reg, j);
  }

  lemma SlotsDiffer(g: nat, h: nat)
    ensures Slot(g) == Slot(h) <==> g % 10 == h % 10
  {
  }

  // Bits 3p to 3p + 2.
  function BitsAt(reg: bv32, p: nat): bv32
    requires p < 10
  {
    (reg >> (3 * p)) & 7
  }

  /** Where the macros put pin g in its register: bits 3 * (g % 10) to 3 * (g % 10) + 2. */
  lemma FieldBits(reg: bv32, g: nat)
    ensures Field(reg, Slot(g)) == (reg >> (3 * (g % 10))) & 7 == BitsAt(reg, g % 10)
  {
    var k := g % 10;
    if k == 0 {
    } else if k == 1 {
    } else if k == 2 {
    } else if k == 3 {
    } else if k == 4 {
    } else if k == 5 {
    } else if k == 6 {
    } else if k == 7 {
    } else if k == 8 {
    } else {
      assert k == 9;
    }
  }

  lemma InputBits(reg: bv32, g: nat)
    ensures BitsAt(AsInput(reg, Slot(g)), g % 10) == 0
  {
    FieldBits(AsInput(reg, Slot(g)), g);
    FieldCleared(reg, Slot(g));
  }

  lemma OutputBits(reg: bv32, g: nat)
    ensures BitsAt(AsOutput(reg, Slot(g)), g % 10) == BitsAt(reg, g % 10) | 1
  {
    FieldBits(reg, g);
    FieldBits(AsOutput(reg, Slot(g)), g);
    FieldRaised(reg, Slot(g));
  }

  // The function field of pin h.
  function PinField(fsel: seq<bv32>, h: nat): bv32
    requires h < 10 * |fsel|
  {
    Field(fsel[h / 10], Slot(h))
  }

  /** Nothing but pin g's field differs: no other pin's field, no unused bit and no other
      register. */
  ghost predicate OnlyPinDiffers(before: seq<bv32>, after: seq<bv32>, g: nat) {
    && |after| == |before| && g < 10 * |before|
    && (forall h: nat :: h < 10 * |before| && h != g ==> PinField(after, h) == PinField(before, h))
    && after[g / 10] & 0xC000_0000 == before[g / 10] & 0xC000_0000
    && forall i :: 0 <= i < |before| && i != g / 10 ==> after[i] == before[i]
  }

  lemma InputKeepsPin(fsel: seq<bv32>, g: nat, h: nat)
    requires g < 10 * |fsel| && h < 10 * |fsel| && h != g
    ensures PinField(fsel[g / 10 := AsInput(fsel[g / 10], Slot(g))], h) == PinField(fsel, h)
  {
    if h / 10 == g / 10 {
      SlotsDiffer(g, h);
      OtherFieldsKept(fsel[g / 10], Slot(g), Slot(h));
    }
  }

  lemma InputDiffersAtPin(fsel: seq<bv32>, g: nat)
    requires g < 10 * |fsel|
    ensures OnlyPinDiffers(fsel, fsel[g / 10 := AsInput(fsel[g / 10], Slot(g))], g)
    ensures PinField(fsel[g / 10 := AsInput(fsel[g / 10], Slot(g))], g) == 0
  {
    FieldCleared(fsel[g / 10], Slot(g));
    forall h: nat | h < 10 * |fsel| && h != g
      ensures PinField(fsel[g / 10 := AsInput(fsel[g / 10], Slot(g))], h) == PinField(fsel, h)
    {
      InputKeepsPin(fsel, g, h);
    }
  }

  lemma OutputKeepsPin(fsel: seq<bv32>, g: nat, h: nat)
    requires g < 10 * |fsel| && h < 10 * |fsel| && h != g
    ensures PinField(fsel[g / 10 := AsOutput(fsel[g / 10], Slot(g))], h) == PinField(fsel, h)
  {
    if h / 10 == g / 10 {
      SlotsDiffer(g, h);
      OtherFieldsKept(fsel[g / 10], Slot(g), Slot(h));
    }
  }

  lemma OutputDiffersAtPin(fsel: seq<bv32>, g: nat)
    requires g < 10 * |fsel|
    ensures OnlyPinDiffers(fsel, fsel[g / 10 := AsOutput(fsel[g / 10], Slot(g))], g)
    ensures PinField(fsel[g / 10 := AsOutput(fsel[g / 10], Slot(g))], g) == PinField(fsel, g) | 1
  {
    FieldRaised(fsel[g / 10], Slot(g));
    forall h: nat | h < 10 * |fsel| && h != g
      ensures PinField(fsel[g / 10 := AsOutput(fsel[g / 10], Slot(g))], h) == PinField(fsel, h)
    {
      OutputKeepsPin(fsel, g, h);
    }
  }

  // The registers after GPIO_IN(g) and then GPIO_OUT(g).
  function MadeOutput(fsel: seq<bv32>, g: nat): seq<bv32>
    requires g < 10 * |fsel|
  {
    var cleared := fsel[g / 10 := AsInput(fsel[g / 10], Slot(g))];
    cleared[g / 10 := AsOutput(cleared[g / 10], Slot(g))]
  }

  /** Initialisation makes pin g an output, with 001 in bits 3 * (g % 10) to 3 * (g % 10) + 2 of
      register g / 10, and leaves the function of every other pin, the unused top bits
      and every other register as they were. */
  lemma InitSelectsOnePin(fsel: seq<bv32>, g: nat)
    requires g < 10 * |fsel|
    ensures OnlyPinDiffers(fsel, MadeOutput(fsel, g), g)
    ensures BitsAt(MadeOutput(fsel, g)[g / 10], g % 10) == 1
  {
    FieldBits(MadeOutput(fsel, g)[g / 10], g);
    InputDiffersAtPin(fsel, g);
    OutputDiffersAtPin(fsel[g / 10 := AsInput(fsel[g / 10], Slot(g))], g);
  }

  // Pin 18 made an output, bit by bit.
  lemma LedPinBits(before: bv32, after: bv32, k: bv32)
    requires k == 8 && after == AsOutput(AsInput(before, k), k)
    ensures after & (7 << 24) == 1 << 24
    ensures after & !(7 << 24) == before & !(7 << 24)
  {
  }

  /** The LED's pin: bits 24 to 26 of register 1 become 001, and no other bit changes. */
  lemma LedRegisters(before: seq<bv32>, after: seq<bv32>)
    requires |before| > 1 && after == MadeOutput(before, 18)
    ensures after[1] & (7 << 24) == 1 << 24
    ensures after[1] & !(7 << 24) == before[1] & !(7 << 24)
    ensures forall i :: 0 <= i < |before| && i != 1 ==> after[i] == before[i]
  {
    LedPinBits(before[1], after[1], Slot(18));
  }

  // ---------- the drivers as state machines ----------

  datatype Op = Read | Write(payload: string)

  function UpToNul(p: string): (s: string)
    ensures |s| <= |p| && NUL !in s
  {
    if p == [] || p[0] == NUL then [] else [p[0]] + UpToNul(p[1..])
  }

  lemma {:induction false} UpToNulEnds(p: string)
    ensures var s := UpToNul(p); s == p[..|s|] && (|s| < |p| ==> p[|s|] == NUL)
  {
    if p == [] || p[0] == NUL {
    } else {
      UpToNulEnds(p[1..]);
    }
  }

  // The message buffer of either driver, which differ in the suffix they append on a read.
  function MessageStep(suffix: string, text: string, op: Op): string {
    match op
    case Read => text + suffix
    case Write(p) => UpToNul(p)
  }

  function MessageRun(suffix: string, text: string, ops: seq<Op>): string {
    if ops == [] then text
    else MessageStep(suffix, MessageRun(suffix, text, ops[..|ops| - 1]), ops[|ops| - 1])
  }

  // Message text and the 32-pin output latch.
  datatype Registers = Registers(text: string, latch: bv32)

  // GPIO_CLR or GPIO_SET of the LED pin.
  function LatchAfter(latch: bv32, off: bool): bv32 {
    if off then latch & !LED_BIT else latch | LED_BIT
  }

  function RegisterStep(r: Registers, op: Op): Registers {
    Registers(MessageStep(REGISTER_SUFFIX, r.text, op),
              match op
              case Read => r.latch
              case Write(p) => LatchAfter(r.latch, UpToNul(p) == "0"))
  }

  function RegisterRun(r: Registers, ops: seq<Op>): Registers {
    if ops == [] then r else RegisterStep(RegisterRun(r, ops[..|ops| - 1]), ops[|ops| - 1])
  }

  predicate Lit(r: Registers) {
    r.latch & LED_BIT != 0
  }

  // Message text and the level last passed to the GPIO call.
  datatype CallState = CallState(text: string, level: bool)

  function CallStep(s: CallState, op: Op): CallState {
    CallState(MessageStep(CALL_SUFFIX, s.text, op),
              match op
              case Read => s.level
              case Write(p) => UpToNul(p) != "0")
  }

  function CallRun(s: CallState, ops: seq<Op>): CallState {
    if ops == [] then s else CallStep(CallRun(s, ops[..|ops| - 1]), ops[|ops| - 1])
  }

  // ---------- what every run does ----------

  // The last write of a run; None if it has none.
  datatype Last = None | At(payload: string, readsSince: nat)

  function LastWrite(ops: seq<Op>): Last {
    if ops == [] then None
    else
      match ops[|ops| - 1]
      case Write(p) => At(p, 0)
      case Read =>
        match LastWrite(ops[..|ops| - 1])
        case None => None
        case At(p, n) => At(p, n + 1)
  }

  function Times(s: string, n: nat): string {
    if n == 0 then [] else Times(s, n - 1) + s
  }

  /** What LastWrite means: the payload at some position that only reads follow. */
  lemma {:induction false} LastWriteFound(ops: seq<Op>)
    ensures match LastWrite(ops)
      case None => forall i :: 0 <= i < |ops| ==> ops[i] == Read
      case At(p, n) =>
        && n < |ops| && ops[|ops| - 1 - n] == Write(p)
        && forall i :: |ops| - n <= i < |ops| ==> ops[i] == Read
  {
    if ops != [] && ops[|ops| - 1] == Read {
      LastWriteFound(ops[..|ops| - 1]);
    }
  }

  lemma {:induction false} MessageWithoutWrite(suffix: string, text: string, ops: seq<Op>)
    requires LastWrite(ops) == None
    ensures MessageRun(suffix, text, ops) == text + Times(suffix, |ops|)
  {
    if ops == [] {
      assert text + [] == text;
    } else {
      MessageWithoutWrite(suffix, text, ops[..|ops| - 1]);
    }
  }

  lemma {:induction false} MessageSinceWrite(suffix: string, text: string, ops: seq<Op>, p: string, n: nat)
    requires LastWrite(ops) == At(p, n)
    ensures MessageRun(suffix, text, ops) == UpToNul(p) + Times(suffix, n)
    decreases n
  {
    if n == 0 {
      assert UpToNul(p) + [] == UpToNul(p);
    } else {
      MessageSinceWrite(suffix, text, ops[..|ops| - 1], p, n - 1);
    }
  }

  lemma MessageAfterRun(suffix: string, text: string, ops: seq<Op>)
    ensures MessageRun(suffix, text, ops) ==
      match LastWrite(ops)
      case None => text + Times(suffix, |ops|)
      case At(p, n) => UpToNul(p) + Times(suffix, n)
  {
    match LastWrite(ops)
    case None => MessageWithoutWrite(suffix, text, ops);
    case At(p, n) => MessageSinceWrite(suffix, text, ops, p, n);
  }

  lemma {:induction false} RegisterMessage(r: Registers, ops: seq<Op>)
    ensures RegisterRun(r, ops).text == MessageRun(REGISTER_SUFFIX, r.text, ops)
  {
    if ops == [] {
    } else {
      RegisterMessage(r, ops[..|ops| - 1]);
    }
  }

  // The other 31 pins.
  function Others(latch: bv32): bv32 {
    latch & !LED_BIT
  }

  lemma LatchAfterWrite(latch: bv32, off: bool)
    ensures Others(LatchAfter(latch, off)) == Others(latch)
    ensures LatchAfter(latch, off) & LED_BIT != 0 <==> !off
  {
  }

  lemma {:induction false} StepKeepsOthers(r: Registers, op: Op)
    ensures Others(RegisterStep(r, op).latch) == Others(r.latch)
  {
    if op.Write? {
      LatchAfterWrite(r.latch, UpToNul(op.payload) == "0");
    }
  }

  lemma StepSetsLed(r: Registers, p: string)
    ensures Lit(RegisterStep(r, Write(p))) <==> UpToNul(p) != "0"
  {
    LatchAfterWrite(r.latch, UpToNul(p) == "0");
  }

  lemma {:induction false} RegisterOthers(r: Registers, ops: seq<Op>)
    ensures Others(RegisterRun(r, ops).latch) == Others(r.latch)
  {
    if ops == [] {
    } else {
      var n := |ops| - 1;
      RegisterOthers(r, ops[..n]);
      StepKeepsOthers(RegisterRun(r, ops[..n]), ops[n]);
    }
  }

  lemma {:induction false} RegisterLed(r: Registers, ops: seq<Op>)
    ensures LastWrite(ops) == None ==> RegisterRun(r, ops).latch == r.latch
    ensures LastWrite(ops).At? ==> (Lit(RegisterRun(r, ops)) <==> UpToNul(LastWrite(ops).payload) != "0")
  {
    if ops == [] {
    } else {
      var n := |ops| - 1;
      RegisterLed(r, ops[..n]);
      if ops[n].Write? {
        StepSetsLed(RegisterRun(r, ops[..n]), ops[n].payload);
      }
    }
  }

  /** The register driver after any run with a write: the message is the last payload up to
      its first NUL and one suffix for each read since, the LED is off exactly when that
      payload was "0", and no other pin has moved. */
  lemma {:induction false} RegisterDriverRuns(r: Registers, ops: seq<Op>)
    ensures RegisterRun(r, ops).latch & !(1 << 18) == r.latch & !(1 << 18)
    ensures match LastWrite(ops)
      case None => RegisterRun(r, ops) == Registers(r.text + Times(" from Kernel", |ops|), r.latch)
      case At(p, n) =>
        && RegisterRun(r, ops).text == UpToNul(p) + Times(" from Kernel", n)
        && (RegisterRun(r, ops).latch & (1 << 18) != 0 <==> UpToNul(p) != "0")
  {
    RegisterMessage(r, ops);
    MessageAfterRun(REGISTER_SUFFIX, r.text, ops);
    RegisterOthers(r, ops);
    RegisterLed(r, ops);
  }

  lemma {:induction false} CallMessage(s: CallState, ops: seq<Op>)
    ensures CallRun(s, ops).text == MessageRun(CALL_SUFFIX, s.text, ops)
  {
    if ops == [] {
    } else {
      CallMessage(s, ops[..|ops| - 1]);
    }
  }

  lemma {:induction false} CallLevel(s: CallState, ops: seq<Op>)
    ensures CallRun(s, ops).level ==
      match LastWrite(ops)
      case None => s.level
      case At(p, _) => UpToNul(p) != "0"
  {
    if ops == [] {
    } else {
      CallLevel(s, ops[..|ops| - 1]);
    }
  }

  /** The same for the gpio-call driver. */
  lemma {:induction false} CallDriverRuns(s: CallState, ops: seq<Op>)
    ensures match LastWrite(ops)
      case None => CallRun(s, ops) == CallState(s.text + Times("from kernel", |ops|), s.level)
      case At(p, n) => CallRun(s, ops) == CallState(UpToNul(p) + Times("from kernel", n), UpToNul(p) != "0")
  {
    CallMessage(s, ops);
    MessageAfterRun(CALL_SUFFIX, s.text, ops);
    CallLevel(s, ops);
  }

  /** Simulation: after the same operations the two drivers show the same LED level exactly
      when the run contains a write or they started at the same level.  The gpio-call driver
      starts the LED low; the register driver leaves it as it was. */
  lemma {:induction false} DriversAgreeIff(r: Registers, s: CallState, ops: seq<Op>)
    ensures (Lit(RegisterRun(r, ops)) == CallRun(s, ops).level)
       <==> (exists i :: 0 <= i < |ops| && ops[i].Write?) || Lit(r) == s.level
  {
    RegisterDriverRuns(r, ops);
    CallDriverRuns(s, ops);
    LastWriteFound(ops);
  }

  /** A zero followed by a newline is not "0": it lights both LEDs. */
  lemma NewlineLightsTheLed(r: Registers, s: CallState)
    ensures Lit(RegisterStep(r, Write("0\n"))) && CallStep(s, Write("0\n")).level
  {
    var p := "0\n";
    assert UpToNul(p[1..]) == ['\n'] + UpToNul(p[1..][1..]);
    assert UpToNul(p) == ['0'] + UpToNul(p[1..]);
    assert |UpToNul(p)| >= 2;
    StepSetsLed(r, p);
  }

  // ---------- the program text ----------

  class Registry {
    const fsel: array<bv32>   // GPFSEL0..5
    var latch: bv32           // output latch behind GPSET0 and GPCLR0

    constructor (fsel: array<bv32>, latch: bv32)
      ensures this.fsel == fsel && this.latch == latch
    {
      this.fsel, this.latch := fsel, latch;
    }

    method GpioIn(g: nat)
      requires g < 10 * fsel.Length
      modifies fsel
      ensures BitsAt(fsel[g / 10], g % 10) == 0
      ensures fsel[g / 10] == AsInput(old(fsel[g / 10]), Slot(g))
      ensures OnlyPinDiffers(old(fsel[..]), fsel[..], g)
    {
      InputDiffersAtPin(fsel[..], g);
      InputBits(fsel[g / 10], g);
      ghost var after := fsel[..][g / 10 := AsInput(fsel[g / 10], Slot(g))];
      fsel[g / 10] := AsInput(fsel[g / 10], Slot(g));
      assert fsel[..] == after;
    }

    method GpioOut(g: nat)
      requires g < 10 * fsel.Length
      modifies fsel
      ensures BitsAt(fsel[g / 10], g % 10) == BitsAt(old(fsel[g / 10]), g % 10) | 1
      ensures fsel[g / 10] == AsOutput(old(fsel[g / 10]), Slot(g))
      ensures OnlyPinDiffers(old(fsel[..]), fsel[..], g)
    {
      OutputDiffersAtPin(fsel[..], g);
      OutputBits(fsel[g / 10], g);
      ghost var after := fsel[..][g / 10 := AsOutput(fsel[g / 10], Slot(g))];
      fsel[g / 10] := AsOutput(fsel[g / 10], Slot(g));
      assert fsel[..] == after;
    }

    // Lines 130-131, for any pin.
    method MakeOutput(g: nat)
      requires g < 10 * fsel.Length
      modifies fsel
      ensures fsel[..] == MadeOutput(old(fsel[..]), g)
    {
      GpioIn(g);
      GpioOut(g);
    }

    // The LED's pin.
    lemma InitLedBits(before: seq<bv32>)
      requires fsel.Length > 1 && |before| == fsel.Length && fsel[..] == MadeOutput(before, 18)
      ensures fsel[1] & (7 << 24) == 1 << 24
      ensures fsel[1] & !(7 << 24) == before[1] & !(7 << 24)
      ensures forall i :: 0 <= i < fsel.Length && i != 1 ==> fsel[i] == before[i]
    {
      LedRegisters(before, fsel[..]);
    }

    // Lines 130-131: the LED's pin is 18.
    method InitLed()
      requires fsel.Length > 1
      modifies fsel
      ensures fsel[1] & (7 << 24) == 1 << 24
      ensures fsel[1] & !(7 << 24) == old(fsel[..])[1] & !(7 << 24)
      ensures forall i :: 0 <= i < fsel.Length && i != 1 ==> fsel[i] == old(fsel[..])[i]
    {
      MakeOutput(18);
      InitLedBits(old(fsel[..]));
    }

    // A store to GPSET0 raises the pins whose bits are one.
    method StoreSet(v: bv32)
      modifies this`latch
      ensures latch == old(latch) | v
    {
      latch := latch | v;
    }

    // A store to GPCLR0 lowers the pins whose bits are one.
    method StoreClr(v: bv32)
      modifies this`latch
      ensures latch == old(latch) & !v
    {
      latch := latch & !v;
    }

    // Line 84.
    method DriveLed(off: bool)
      modifies this`latch
      ensures latch == LatchAfter(old(latch), off)
      ensures latch & (1 << 18) != 0 <==> !off
    {
      if off {
        StoreClr(LED_BIT);
      } else {
        StoreSet(LED_BIT);
      }
    }
  }

  /** The static msg buffer; `text` is the C string in it. */
  class Message {
    const buf: array<char>
    ghost var text: string

    ghost predicate Valid()
      reads this, buf
    {
      Holds(buf[..], 0, text)
    }

    // Static storage, zero from the start.
    constructor (capacity: nat)
      requires capacity > 0
      ensures Valid() && fresh(buf) && buf.Length == capacity && text == []
    {
      buf := new char[capacity](_ => NUL);
      text := [];
    }

    // strcat(msg, suffix)
    method Append(suffix: string)
      requires Valid() && NUL !in suffix && |text| + |suffix| < buf.Length
      modifies this, buf
      ensures Valid() && text == old(text) + suffix
    {
      ghost var s := text;
      var n := Length();
      var k := 0;
      while k < |suffix|
        invariant 0 <= k <= |suffix|
        invariant buf[..n] == s
        invariant forall q :: 0 <= q < k ==> buf[n + q] == suffix[q]
      {
        buf[n + k] := suffix[k];
        k := k + 1;
      }
      buf[n + k] := NUL;
      text := s + suffix;
      assert buf[..n] == s;
      CopyHolds(buf[..], text);
    }

    // strlen(msg)
    method Length() returns (n: nat)
      requires Valid()
      ensures n == |text| && n < buf.Length && buf[..n] == text
    {
      n := 0;
      Uncons(buf[..], 0, text);
      while buf[n] != NUL
        invariant n <= |text| && buf[n] == (if n < |text| then text[n] else NUL)
        invariant n < |text| ==> text[n] != NUL
        decreases |text| - n
      {
        n := n + 1;
        HoldsAt(buf[..], 0, text, n);
      }
    }

    // memset to zero, then copy_from_user.
    method Load(payload: string)
      requires |payload| < buf.Length
      modifies this, buf
      ensures Valid() && text == UpToNul(payload)
    {
      for i := 0 to buf.Length
        invariant forall q :: 0 <= q < i ==> buf[q] == NUL
      {
        buf[i] := NUL;
      }
      for i := 0 to |payload|
        invariant buf[..i] == payload[..i]
        invariant forall q :: i <= q < buf.Length ==> buf[q] == NUL
      {
        buf[i] := payload[i];
      }
      text := UpToNul(payload);
      UpToNulEnds(payload);
      assert buf[..|payload|] == payload;
      CopyHolds(buf[..], text);
    }
  }

  class RegisterDriver {
    const gpio: Registry
    const msg: Message

    ghost predicate Valid()
      reads msg, msg.buf
    {
      msg.Valid()
    }

    ghost function State(): Registers
      reads gpio, msg
    {
      Registers(msg.text, gpio.latch)
    }

    // initModule; the caller supplies the mapped registers.
    constructor (gpio: Registry, capacity: nat)
      requires gpio.fsel.Length > 1 && capacity > 0
      modifies gpio.fsel
      ensures this.gpio == gpio && fresh(msg) && fresh(msg.buf) && msg.buf.Length == capacity
      ensures gpio.fsel[1] & (7 << 24) == 1 << 24
      ensures gpio.fsel[1] & !(7 << 24) == old(gpio.fsel[1]) & !(7 << 24)
      ensures forall i :: 0 <= i < gpio.fsel.Length && i != 1 ==> gpio.fsel[i] == old(gpio.fsel[i])
      ensures Valid() && State() == Registers([], old(gpio.latch))
    {
      this.gpio := gpio;
      msg := new Message(capacity);
      new;
      gpio.InitLed();
    }

    // The count returned is copy_to_user's number of bytes left uncopied.
    method Read() returns (delivered: string, count: int)
      requires Valid() && |msg.text| + |REGISTER_SUFFIX| < msg.buf.Length
      modifies msg, msg.buf
      ensures Valid() && State() == RegisterStep(old(State()), Op.Read)
      ensures delivered == old(msg.text) + " from Kernel" + ['\0'] && count == 0
    {
      msg.Append(REGISTER_SUFFIX);
      var n := msg.Length();
      delivered := msg.buf[..n] + [msg.buf[n]];
      HoldsAt(msg.buf[..], 0, msg.text, n);
      count := 0;
    }

    method Write(payload: string) returns (count: int)
      requires Valid() && |payload| < msg.buf.Length
      modifies msg, msg.buf, gpio`latch
      ensures Valid() && State() == RegisterStep(old(State()), Op.Write(payload))
      ensures count == 0
    {
      msg.Load(payload);
      var off := StrEq(msg.buf, msg.text, "0");
      gpio.DriveLed(off);
      count := 0;
    }
  }

  class CallDriver {
    var level: bool
    const msg: Message

    ghost predicate Valid()
      reads msg, msg.buf
    {
      msg.Valid()
    }

    ghost function State(): CallState
      reads this, msg
    {
      CallState(msg.text, level)
    }

    // gpio_direction_output(GPIO_LED, 0)
    constructor (capacity: nat)
      requires capacity > 0
      ensures fresh(msg) && fresh(msg.buf) && msg.buf.Length == capacity
      ensures Valid() && State() == CallState([], false)
    {
      level := false;
      msg := new Message(capacity);
    }

    method Read() returns (delivered: string, count: int)
      requires Valid() && |msg.text| + |CALL_SUFFIX| < msg.buf.Length
      modifies msg, msg.buf
      ensures Valid() && State() == CallStep(old(State()), Op.Read)
      ensures delivered == old(msg.text) + "from kernel" + ['\0'] && count == 0
    {
      msg.Append(CALL_SUFFIX);
      var n := msg.Length();
      delivered := msg.buf[..n] + [msg.buf[n]];
      HoldsAt(msg.buf[..], 0, msg.text, n);
      count := 0;
    }

    method Write(payload: string) returns (count: int)
      requires Valid() && |payload| < msg.buf.Length
      modifies this`level, msg, msg.buf
      ensures Valid() && State() == CallStep(old(State()), Op.Write(payload))
      ensures count == 0
    {
      msg.Load(payload);
      var off := StrEq(msg.buf, msg.text, "0");
      level := if off then false else true;
      count := 0;
    }
  }
}
