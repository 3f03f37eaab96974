/**
 Type-erased formatting arguments: the 64-bit descriptor that packs up to fifteen argument types
 in four bits each next to two flag bits, lookup by position and by name, and the bookkeeping of
 automatic and manual argument numbers.

 The descriptor is read back exactly: each type at its index, "none" behind the last, and the two
 flag bits, for any number of arguments. A lookup never reads outside the storage. Requests for
 arguments are answered without error exactly when all of them are automatic or all manual.
 */
module FormatArgs {
  import opened Powers
  import opened Wrappers

  // ---------------------------------------------------------------------------
  // Machine words
  // ---------------------------------------------------------------------------

  /** Bitwise or. */
  function Or(x: nat, y: nat): nat {
    if x == 0 then y
    else if y == 0 then x
    else (if x % 2 == 1 || y % 2 == 1 then 1 else 0) + 2 * Or(x / 2, y / 2)
  }

  lemma {:induction false} OrComm(x: nat, y: nat)
    ensures Or(x, y) == Or(y, x)
  {
    if x != 0 && y != 0 {
      OrComm(x / 2, y / 2);
    }
  }

  /** Low bits present on one side only pass through. */
  lemma {:induction false} OrSplit(low: nat, x: nat, y: nat, k: nat)
    requires low < Pow2(k)
    ensures Pow2(k) * x >= 0 && Pow2(k) * y >= 0
    ensures Or(low + Pow2(k) * x, Pow2(k) * y) == low + Pow2(k) * Or(x, y)
  {
    hide Or;
    ProductNonNegative(Pow2(k), x);
    ProductNonNegative(Pow2(k), y);
    if k > 0 {
      var p := Pow2(k - 1);
      ProductNonNegative(p, x);
      ProductNonNegative(p, y);
      OrSplit(low / 2, x, y, k - 1);
      TwiceProduct(p, x);
      TwiceProduct(p, y);
      TwiceProduct(p, Or(x, y));
      OrStep(low, p * x, p * y);
    }
  }

  lemma ProductNonNegative(p: int, x: nat)
    requires p > 0
    ensures p * x >= 0
  {
  }

  lemma TwiceProduct(p: int, x: int)
    ensures (2 * p) * x == 2 * (p * x)
  {
  }

  lemma OrStep(low: nat, x: nat, y: nat)
    ensures Or(low + 2 * x, 2 * y) == low % 2 + 2 * Or(low / 2 + x, y)
  {
  }

  const TWO31: nat := 0x8000_0000
  const TWO32: nat := 0x1_0000_0000
  const IS_UNPACKED_BIT: nat := 0x8000_0000_0000_0000
  const HAS_NAMED_ARGS_BIT: nat := 0x4000_0000_0000_0000
  const TWO64: nat := 0x1_0000_0000_0000_0000
  const MAX_PACKED_ARGS: nat := 15
  const NONE_TYPE: nat := 0

  lemma Pow2At31()
    ensures Pow2(31) == TWO31
  {
    assert Pow2(8) == 0x100;
    assert Pow2(16) == 0x1_0000;
    assert Pow2(24) == 0x100_0000;
  }

  lemma Pow2At62()
    ensures Pow2(62) == HAS_NAMED_ARGS_BIT
  {
    Pow2At31();
    assert Pow2(39) == 0x80_0000_0000;
    assert Pow2(47) == 0x8000_0000_0000;
    assert Pow2(55) == 0x80_0000_0000_0000;
  }

  /** A left shift of a 64-bit word by four. */
  function ShiftLeft4(x: nat): nat { x * 16 % TWO64 }

  /** Whether a word has a flag, a power of two, set. */
  predicate TestBit(x: nat, flag: nat)
    requires flag > 0
  {
    x / flag % 2 == 1
  }

  function ClearUnpackedBit(x: nat): nat {
    if TestBit(x, IS_UNPACKED_BIT) && x >= IS_UNPACKED_BIT then x - IS_UNPACKED_BIT else x
  }

  /** Conversion to a 32-bit signed integer. */
  function ToInt32(x: nat): int {
    if x % TWO32 < TWO31 then x % TWO32 else x % TWO32 - TWO32
  }

  // ---------------------------------------------------------------------------
  // Arguments and their store
  // ---------------------------------------------------------------------------

  /** A type number; zero is "none". */
  type ArgType = t: nat | 1 <= t < 16 witness 1

  datatype Arg = Arg(kind: ArgType, value: nat, name: Option<string>)

  datatype NamedInfo = NamedInfo(name: string, id: nat)

  /** One element of the storage; `Outside` is what lies beyond it. */
  datatype Slot = NamedSlot(infos: seq<NamedInfo>) | ValueSlot(value: nat) | ArgSlot(kind: ArgType, value: nat) | Outside

  /** The view passed to formatting functions: a descriptor and a pointer into the storage. */
  datatype View = View(desc: nat, slots: seq<Slot>, origin: nat)

  function Types(args: seq<Arg>): (types: seq<ArgType>)
    ensures |types| == |args|
    ensures forall i :: 0 <= i < |args| ==> types[i] == args[i].kind
  {
    seq(|args|, i requires 0 <= i < |args| => args[i].kind)
  }

  function EncodeTypes(types: seq<ArgType>): nat {
    if types == [] then 0 else Or(types[0], ShiftLeft4(EncodeTypes(types[1..])))
  }

  /** The named arguments in order, each with its position among all arguments. */
  function NamedInfos(args: seq<Arg>, start: nat): (infos: seq<NamedInfo>)
    ensures |infos| <= |args|
  {
    if args == [] then []
    else (if args[0].name.Some? then [NamedInfo(args[0].name.value, start)] else []) + NamedInfos(args[1..], start + 1)
  }

  function Descriptor(args: seq<Arg>): nat {
    Or(if |args| <= MAX_PACKED_ARGS then EncodeTypes(Types(args)) else Or(IS_UNPACKED_BIT, |args|),
       if NamedInfos(args, 0) != [] then HAS_NAMED_ARGS_BIT else 0)
  }

  function Slots(args: seq<Arg>): (slots: seq<Slot>)
    ensures |slots| == |args|
  {
    seq(|args|, i requires 0 <= i < |args| =>
      if |args| <= MAX_PACKED_ARGS then ValueSlot(args[i].value) else ArgSlot(args[i].kind, args[i].value))
  }

  /** The store: named argument information sits just before the first argument. */
  function Store(args: seq<Arg>): View {
    var infos := NamedInfos(args, 0);
    if infos == [] then View(Descriptor(args), Slots(args), 0)
    else View(Descriptor(args), [NamedSlot(infos)] + Slots(args), 1)
  }

  /** Records name and position of every named argument, by recursion over the argument list. */
  method InitNamedArgs(named: array<NamedInfo>, argCount: nat, namedCount: nat, args: seq<Arg>)
    requires namedCount + |NamedInfos(args, argCount)| <= named.Length
    modifies named
    ensures named[namedCount..namedCount + |NamedInfos(args, argCount)|] == NamedInfos(args, argCount)
    ensures forall i :: 0 <= i < namedCount ==> named[i] == old(named[i])
    decreases |args|
  {
    if args == [] {
      return;
    }
    if args[0].name.Some? {
      named[namedCount] := NamedInfo(args[0].name.value, argCount);
      InitNamedArgs(named, argCount + 1, namedCount + 1, args[1..]);
    } else {
      InitNamedArgs(named, argCount + 1, namedCount, args[1..]);
    }
  }

  method MakeStore(args: seq<Arg>) returns (view: View)
    ensures view == Store(args)
  {
    var count := |NamedInfos(args, 0)|;
    var named := new NamedInfo[count](i => NamedInfo("", 0));
    InitNamedArgs(named, 0, 0, args);
    assert named[..] == named[0..count];
    var slots := Slots(args);
    if count == 0 {
      view := View(Descriptor(args), slots, 0);
    } else {
      view := View(Descriptor(args), [NamedSlot(named[..])] + slots, 1);
    }
  }

  // ---------------------------------------------------------------------------
  // Lookup
  // ---------------------------------------------------------------------------

  datatype FormatArg = FormatArg(kind: nat, value: nat) | Undefined

  const NO_ARG := FormatArg(NONE_TYPE, 0)

  function SlotAt(v: View, i: int): Slot {
    if 0 <= v.origin + i < |v.slots| then v.slots[v.origin + i] else Outside
  }

  predicate IsPacked(v: View) { !TestBit(v.desc, IS_UNPACKED_BIT) }

  predicate HasNamedArgs(v: View) { TestBit(v.desc, HAS_NAMED_ARGS_BIT) }

  function Pow16(n: nat): (p: nat)
    ensures p > 0
  {
    if n == 0 then 1 else 16 * Pow16(n - 1)
  }

  /** The descriptor shifted right by four times the index, masked to four bits. */
  function TypeAt(desc: nat, index: nat): nat { desc / Pow16(index) % 16 }

  function MaxSize(v: View): int {
    ToInt32(if IsPacked(v) then MAX_PACKED_ARGS else ClearUnpackedBit(v.desc))
  }

  function Get(v: View, id: nat): FormatArg {
    if !IsPacked(v) then
      if id < MaxSize(v) then (var s := SlotAt(v, id); if s.ArgSlot? then FormatArg(s.kind, s.value) else Undefined)
      else NO_ARG
    else if id >= MAX_PACKED_ARGS then NO_ARG
    else if TypeAt(v.desc, id) == NONE_TYPE then NO_ARG
    else (var s := SlotAt(v, id); if s.ValueSlot? then FormatArg(TypeAt(v.desc, id), s.value) else Undefined)
  }

  /** The named argument information a view reaches, one step before its first argument. */
  function Infos(v: View): seq<NamedInfo> {
    var s := SlotAt(v, -1);
    if s.NamedSlot? then s.infos else []
  }

  /** The position of the first argument of that name, or -1. */
  function PositionOf(args: seq<Arg>, name: string, start: nat): int {
    if args == [] then -1
    else if args[0].name == Some(name) then start
    else PositionOf(args[1..], name, start + 1)
  }

  /** What the scan by name finds. */
  function Lookup(v: View, name: string): int {
    if HasNamedArgs(v) then ScanFrom(Infos(v), name, 0) else -1
  }

  function GetNamed(v: View, name: string): FormatArg {
    if Lookup(v, name) >= 0 then Get(v, Lookup(v, name)) else NO_ARG
  }

  method GetId(v: View, name: string) returns (id: int)
    requires HasNamedArgs(v) ==> SlotAt(v, -1).NamedSlot?
    ensures id == Lookup(v, name)
  {
    if !HasNamedArgs(v) {
      return -1;
    }
    var infos := v.slots[v.origin - 1].infos;
    for i := 0 to |infos|
      invariant ScanFrom(infos, name, 0) == ScanFrom(infos, name, i)
    {
      if infos[i].name == name {
        return infos[i].id;
      }
    }
    return -1;
  }

  function ScanFrom(infos: seq<NamedInfo>, name: string, i: nat): int
    requires i <= |infos|
    decreases |infos| - i
  {
    if i == |infos| then -1
    else if infos[i].name == name then infos[i].id
    else ScanFrom(infos, name, i + 1)
  }

  // ---------------------------------------------------------------------------
  // What the descriptor holds
  // ---------------------------------------------------------------------------

  /** Type numbers as base-16 digits, least significant first, below some higher part. */
  function Digits(types: seq<ArgType>, high: nat): nat {
    if types == [] then high else types[0] + 16 * Digits(types[1..], high)
  }

  lemma {:induction false} DigitsHigh(types: seq<ArgType>, high: nat)
    ensures Digits(types, high) == Digits(types, 0) + Pow16(|types|) * high
  {
    if types != [] {
      DigitsHigh(types[1..], high);
      Sixteenfold(Pow16(|types| - 1), high);
    }
  }

  lemma Sixteenfold(p: int, x: int)
    ensures (16 * p) * x == 16 * (p * x)
  {
  }

  lemma {:induction false} DigitsBound(types: seq<ArgType>)
    ensures Digits(types, 0) < Pow16(|types|)
  {
    if types != [] {
      DigitsBound(types[1..]);
    }
  }

  lemma {:induction false} Pow16Mono(m: nat, n: nat)
    requires m <= n
    ensures Pow16(m) <= Pow16(n)
  {
    if m < n {
      Pow16Mono(m, n - 1);
    }
  }

  lemma Pow16At15()
    ensures Pow16(15) == 0x1000_0000_0000_0000
  {
    assert Pow16(3) == 0x1000;
    assert Pow16(6) == 0x100_0000;
    assert Pow16(9) == 0x10_0000_0000;
    assert Pow16(12) == 0x1_0000_0000_0000;
  }

  lemma DigitsFit(types: seq<ArgType>)
    requires |types| <= MAX_PACKED_ARGS
    ensures Digits(types, 0) < 0x1000_0000_0000_0000
  {
    hide Pow16, Digits;
    DigitsBound(types);
    Pow16Mono(|types|, 15);
    Pow16At15();
  }

  /** No type is lost while the descriptor is shifted together. */
  lemma {:induction false} EncodeIsDigits(types: seq<ArgType>)
    requires |types| <= MAX_PACKED_ARGS
    ensures EncodeTypes(types) == Digits(types, 0)
  {
    if types != [] {
      EncodeIsDigits(types[1..]);
      var rest := Digits(types[1..], 0);
      DigitsFit(types);
      ShiftKeeps(rest);
      OrNibble(types[0], rest);
    }
  }

  lemma ShiftKeeps(x: nat)
    requires x < 0x1000_0000_0000_0000
    ensures ShiftLeft4(x) == 16 * x
  {
  }

  lemma OrNibble(t: ArgType, rest: nat)
    ensures Or(t, 16 * rest) == t + 16 * rest
  {
    assert Pow2(4) == 16;
    OrSplit(t, 0, rest, 4);
  }

  lemma NestedDivision(x: nat, p: nat)
    requires p > 0
    ensures x / (16 * p) == x / 16 / p
  {
    var q := x / 16 / p;
    DivisionBounds(x / 16, p);
    Sixteenfold(p, q);
    ResidueUnique(x, 16 * p, q, x - 16 * p * q);
  }

  lemma DivisionBounds(a: nat, b: nat)
    requires b > 0
    ensures b * (a / b) <= a < b * (a / b) + b
  {
  }

  /** Reading a digit further up is reading it in what is left behind the lowest digit. */
  lemma DigitAbove(desc: nat, i: nat)
    requires i > 0
    ensures TypeAt(desc, i) == TypeAt(desc / 16, i - 1)
  {
    NestedDivision(desc, Pow16(i - 1));
  }

  lemma LowestDigit(t: nat, rest: nat)
    requires t < 16
    ensures (t + 16 * rest) / 16 == rest && (t + 16 * rest) % 16 == t
  {
  }

  lemma TypeAtZero(desc: nat)
    ensures TypeAt(desc, 0) == desc % 16
  {
  }

  /** Digit i is type i. */
  lemma {:induction false} TypeAtDigits(types: seq<ArgType>, high: nat, i: nat)
    requires i < |types|
    ensures TypeAt(Digits(types, high), i) == types[i]
  {
    hide TypeAt;
    LowestDigit(types[0], Digits(types[1..], high));
    if i > 0 {
      TypeAtDigits(types[1..], high, i - 1);
      DigitAbove(Digits(types, high), i);
    } else {
      TypeAtZero(Digits(types, high));
    }
  }

  /** Past the types come the digits of the higher part. */
  lemma {:induction false} TypeAtHigh(types: seq<ArgType>, high: nat, i: nat)
    requires i >= |types|
    ensures TypeAt(Digits(types, high), i) == TypeAt(high, i - |types|)
  {
    hide TypeAt;
    if types != [] {
      LowestDigit(types[0], Digits(types[1..], high));
      TypeAtHigh(types[1..], high, i - 1);
      DigitAbove(Digits(types, high), i);
    }
  }

  lemma {:induction false} ZeroDigit(x: nat, k: nat, j: nat)
    requires j < k
    ensures TypeAt(Pow16(k) * x, j) == 0
  {
    hide TypeAt;
    Sixteenfold(Pow16(k - 1), x);
    LowestDigit(0, Pow16(k - 1) * x);
    if j > 0 {
      ZeroDigit(x, k - 1, j - 1);
      DigitAbove(Pow16(k) * x, j);
    } else {
      TypeAtZero(Pow16(k) * x);
    }
  }

  lemma {:induction false} Pow16Sum(m: nat, n: nat)
    ensures Pow16(m + n) == Pow16(m) * Pow16(n)
  {
    if m > 0 {
      Pow16Sum(m - 1, n);
      Sixteenfold(Pow16(m - 1), Pow16(n));
    }
  }

  /** The flag bits lie above fifteen digits, so as a higher part they are a multiple of what is left. */
  lemma FlagsAreHigh(types: seq<ArgType>, flag: nat)
    requires |types| <= MAX_PACKED_ARGS
    ensures Digits(types, 0) + 0x1000_0000_0000_0000 * flag == Digits(types, Pow16(15 - |types|) * flag)
  {
    hide Pow16, Digits;
    DigitsHigh(types, Pow16(15 - |types|) * flag);
    Pow16Sum(|types|, 15 - |types|);
    Pow16At15();
    Reassociate(Pow16(|types|), Pow16(15 - |types|), flag);
  }

  lemma Reassociate(x: int, y: int, z: int)
    ensures (x * y) * z == x * (y * z)
  {
  }

  function NamedFlag(args: seq<Arg>): nat { if NamedInfos(args, 0) != [] then 1 else 0 }

  lemma PackedDescriptor(args: seq<Arg>)
    requires |args| <= MAX_PACKED_ARGS
    ensures Descriptor(args) == Digits(Types(args), 0) + HAS_NAMED_ARGS_BIT * NamedFlag(args)
  {
    hide Digits, Pow2, EncodeTypes, Or;
    EncodeIsDigits(Types(args));
    DigitsFit(Types(args));
    Pow2At62();
    OrSplit(Digits(Types(args), 0), 0, 1, 62);
    OrZero(Digits(Types(args), 0));
    OrZero(1);
  }

  lemma OrZero(x: nat)
    ensures Or(x, 0) == x && Or(0, x) == x
  {
  }

  lemma UnpackedDescriptor(args: seq<Arg>)
    requires MAX_PACKED_ARGS < |args| < TWO31
    ensures Descriptor(args) == |args| + IS_UNPACKED_BIT + HAS_NAMED_ARGS_BIT * NamedFlag(args)
  {
    hide Pow2, EncodeTypes, Or;
    Pow2At62();
    OrComm(IS_UNPACKED_BIT, |args|);
    OrSplit(|args|, 0, 2, 62);
    OrZero(2);
    OrSplit(|args|, 2, 1, 62);
    OrTwoOne();
    OrZero(IS_UNPACKED_BIT + |args|);
  }

  lemma OrTwoOne()
    ensures Or(2, 1) == 3
  {
  }

  lemma PackedFlags(x: nat, flag: nat)
    requires x < 0x1000_0000_0000_0000 && flag <= 1
    ensures !TestBit(x + HAS_NAMED_ARGS_BIT * flag, IS_UNPACKED_BIT)
    ensures TestBit(x + HAS_NAMED_ARGS_BIT * flag, HAS_NAMED_ARGS_BIT) <==> flag == 1
  {
  }

  lemma UnpackedFlags(n: nat, flag: nat)
    requires n < TWO31 && flag <= 1
    ensures TestBit(n + IS_UNPACKED_BIT + HAS_NAMED_ARGS_BIT * flag, IS_UNPACKED_BIT)
    ensures TestBit(n + IS_UNPACKED_BIT + HAS_NAMED_ARGS_BIT * flag, HAS_NAMED_ARGS_BIT) <==> flag == 1
  {
  }

  /** Converting the count to a 32-bit integer drops the names flag with the high half. */
  lemma CountSurvives(n: nat, flag: nat)
    requires n < TWO31 && flag <= 1
    ensures ToInt32(n + HAS_NAMED_ARGS_BIT * flag) == n
  {
  }

  lemma FlagsOfPacked(args: seq<Arg>)
    requires |args| <= MAX_PACKED_ARGS
    ensures var d := Descriptor(args); !TestBit(d, IS_UNPACKED_BIT) && (TestBit(d, HAS_NAMED_ARGS_BIT) <==> NamedInfos(args, 0) != [])
  {
    hide Digits, Or, Descriptor, NamedInfos, TestBit;
    PackedDescriptor(args);
    DigitsFit(Types(args));
    PackedFlags(Digits(Types(args), 0), NamedFlag(args));
  }

  lemma FlagsOfUnpacked(args: seq<Arg>)
    requires MAX_PACKED_ARGS < |args| < TWO31
    ensures var d := Descriptor(args);
      && TestBit(d, IS_UNPACKED_BIT) && (TestBit(d, HAS_NAMED_ARGS_BIT) <==> NamedInfos(args, 0) != [])
      && ToInt32(ClearUnpackedBit(d)) == |args|
  {
    hide Digits, Or, Descriptor, NamedInfos, TestBit, ToInt32;
    UnpackedDescriptor(args);
    UnpackedFlags(|args|, NamedFlag(args));
    CountSurvives(|args|, NamedFlag(args));
    assert ClearUnpackedBit(Descriptor(args)) == |args| + HAS_NAMED_ARGS_BIT * NamedFlag(args);
  }

  /** Both flag bits survive packing, for every argument list. */
  lemma {:induction false} FlagsOfStore(args: seq<Arg>)
    requires |args| < TWO31
    ensures IsPacked(Store(args)) <==> |args| <= MAX_PACKED_ARGS
    ensures HasNamedArgs(Store(args)) <==> NamedInfos(args, 0) != []
    ensures MaxSize(Store(args)) == if |args| <= MAX_PACKED_ARGS then MAX_PACKED_ARGS else |args|
  {
    hide Descriptor, Slots, ToInt32, ClearUnpackedBit, NamedInfos, TestBit;
    if |args| <= MAX_PACKED_ARGS {
      CountSurvives(MAX_PACKED_ARGS, 0);
      FlagsOfPacked(args);
    } else {
      FlagsOfUnpacked(args);
    }
  }

  lemma PackedTypes(args: seq<Arg>, id: nat)
    requires |args| <= MAX_PACKED_ARGS && id < MAX_PACKED_ARGS
    ensures TypeAt(Descriptor(args), id) == if id < |args| then args[id].kind else NONE_TYPE
  {
    hide Digits, Or, Descriptor, Pow16, TypeAt;
    PackedDescriptor(args);
    FlagsAreHigh(Types(args), 4 * NamedFlag(args));
    var high := Pow16(15 - |args|) * (4 * NamedFlag(args));
    if id < |args| {
      TypeAtDigits(Types(args), high, id);
    } else {
      TypeAtHigh(Types(args), high, id);
      ZeroDigit(4 * NamedFlag(args), 15 - |args|, id - |args|);
    }
  }

  /**
   For every list of arguments, packed or not, with or without names, position i holds argument i
   with its type, positions past the end hold nothing, and nothing outside the storage is read.
   */
  lemma GetIsArgument(args: seq<Arg>, id: nat)
    requires |args| < TWO31
    ensures Get(Store(args), id) == if id < |args| then FormatArg(args[id].kind, args[id].value) else NO_ARG
  {
    hide Descriptor, IsPacked, MaxSize, TypeAt, NamedInfos;
    FlagsOfStore(args);
    if id < |args| {
      SlotOfStore(args, id);
    }
    if |args| <= MAX_PACKED_ARGS && id < MAX_PACKED_ARGS {
      PackedTypes(args, id);
    }
  }

  lemma SlotOfStore(args: seq<Arg>, id: nat)
    requires id < |args|
    ensures SlotAt(Store(args), id) ==
      if |args| <= MAX_PACKED_ARGS then ValueSlot(args[id].value) else ArgSlot(args[id].kind, args[id].value)
  {
  }

  /** Scanning the recorded names finds the position of the first argument of that name. */
  lemma {:induction false} ScanFindsPosition(before: seq<NamedInfo>, args: seq<Arg>, name: string, start: nat)
    ensures ScanFrom(before + NamedInfos(args, start), name, |before|) == PositionOf(args, name, start)
    decreases |args|
  {
    var infos := before + NamedInfos(args, start);
    if args != [] {
      var rest := NamedInfos(args[1..], start + 1);
      if args[0].name.Some? {
        var first := NamedInfo(args[0].name.value, start);
        assert infos == (before + [first]) + rest;
        ScanFindsPosition(before + [first], args[1..], name, start + 1);
      } else {
        assert infos == before + rest;
        ScanFindsPosition(before, args[1..], name, start + 1);
      }
    }
  }

  lemma {:induction false} NoNamesNoPosition(args: seq<Arg>, name: string, start: nat)
    requires NamedInfos(args, start) == []
    ensures PositionOf(args, name, start) == -1
  {
    if args != [] {
      NoNamesNoPosition(args[1..], name, start + 1);
    }
  }

  /** PositionOf, told by its meaning: the first argument of that name. */
  lemma {:induction false} PositionIsFirst(args: seq<Arg>, name: string, start: nat)
    ensures var p := PositionOf(args, name, start);
      && (p == -1 <==> forall i :: 0 <= i < |args| ==> args[i].name != Some(name))
      && (p != -1 ==> start <= p < start + |args| && args[p - start].name == Some(name)
                      && forall i :: 0 <= i < p - start ==> args[i].name != Some(name))
  {
    if args != [] && args[0].name != Some(name) {
      PositionIsFirst(args[1..], name, start + 1);
      assert forall i :: 0 < i < |args| ==> args[i] == args[1..][i - 1];
    }
  }

  lemma NamedSlotOfStore(args: seq<Arg>)
    requires NamedInfos(args, 0) != []
    ensures SlotAt(Store(args), -1) == NamedSlot(NamedInfos(args, 0))
  {
  }

  lemma LookupIsPosition(args: seq<Arg>, name: string)
    requires |args| < TWO31
    ensures Lookup(Store(args), name) == PositionOf(args, name, 0)
  {
    hide Descriptor, NamedInfos, Store, SlotAt, ScanFrom, PositionOf, HasNamedArgs;
    FlagsOfStore(args);
    if NamedInfos(args, 0) == [] {
      NoNamesNoPosition(args, name, 0);
    } else {
      NamedSlotOfStore(args);
      ScanFindsPosition([], args, name, 0);
      assert [] + NamedInfos(args, 0) == NamedInfos(args, 0);
    }
  }

  /**
   Lookup by name, packed or not: -1 exactly when no argument has the name, otherwise the position
   of the first that has it; getting by name gives that argument's type and value, or nothing.
   */
  lemma NamedLookup(args: seq<Arg>, name: string)
    requires |args| < TWO31
    ensures var p := Lookup(Store(args), name);
      && (p == -1 <==> forall i :: 0 <= i < |args| ==> args[i].name != Some(name))
      && (p != -1 ==> 0 <= p < |args| && args[p].name == Some(name) && forall i :: 0 <= i < p ==> args[i].name != Some(name))
      && GetNamed(Store(args), name) == if p == -1 then NO_ARG else FormatArg(args[p].kind, args[p].value)
  {
    hide Get, Lookup, Store, PositionOf;
    LookupIsPosition(args, name);
    PositionIsFirst(args, name, 0);
    if Lookup(Store(args), name) >= 0 {
      GetIsArgument(args, Lookup(Store(args), name));
    }
  }

  // ---------------------------------------------------------------------------
  // Automatic and manual numbering
  // ---------------------------------------------------------------------------

  datatype IndexError = ManualToAutomatic | AutomaticToManual

  /** A format string asks for the next argument, or for one by number. */
  datatype Request = Auto | Manual(id: int)

  /** The answer to a request, given the next automatic number or -1 in manual mode. */
  function Answer(next: int, r: Request): Result<int, IndexError> {
    match r
    case Auto => if next >= 0 then Ok(next) else Err(ManualToAutomatic)
    case Manual(id) => if next > 0 then Err(AutomaticToManual) else Ok(id)
  }

  function Advance(next: int, r: Request): int {
    if Answer(next, r).Err? then next else if r.Auto? then next + 1 else -1
  }

  class ParseContext {
    var nextArgId: int

    constructor ()
      ensures nextArgId == 0
    {
      nextArgId := 0;
    }

    method NextArgId() returns (r: Result<int, IndexError>)
      modifies this
      ensures r == Answer(old(nextArgId), Auto) && nextArgId == Advance(old(nextArgId), Auto)
    {
      if nextArgId >= 0 {
        nextArgId := nextArgId + 1;
        return Ok(nextArgId - 1);
      }
      return Err(ManualToAutomatic);
    }

    method CheckArgId(id: int) returns (r: Result<int, IndexError>)
      modifies this
      ensures r == Answer(old(nextArgId), Manual(id)) && nextArgId == Advance(old(nextArgId), Manual(id))
    {
      if nextArgId > 0 {
        return Err(AutomaticToManual);
      }
      nextArgId := -1;
      return Ok(id);
    }
  }

  /** The context after k requests, all answered. */
  function NextAfter(requests: seq<Request>, k: nat): int
    requires k <= |requests|
  {
    if k == 0 then 0 else Advance(NextAfter(requests, k - 1), requests[k - 1])
  }

  predicate AllAnswered(requests: seq<Request>, k: nat)
    requires k <= |requests|
  {
    k == 0 || (AllAnswered(requests, k - 1) && Answer(NextAfter(requests, k - 1), requests[k - 1]).Ok?)
  }

  predicate OneKind(requests: seq<Request>, k: nat)
    requires k <= |requests|
  {
    forall i :: 0 <= i < k ==> requests[i].Auto? == requests[0].Auto?
  }

  /** All requests are answered exactly when they are of one kind. */
  lemma {:induction false} NumberingIsUniform(requests: seq<Request>, k: nat)
    requires k <= |requests|
    ensures AllAnswered(requests, k) <==> OneKind(requests, k)
    ensures OneKind(requests, k) ==> NextAfter(requests, k) == if k == 0 then 0 else if requests[0].Auto? then k else -1
  {
    if k > 0 {
      NumberingIsUniform(requests, k - 1);
      assert OneKind(requests, k) <==> OneKind(requests, k - 1) && requests[k - 1].Auto? == requests[0].Auto?;
    }
  }

  /** Automatic requests are then answered by 0, 1, 2, ... in order, and manual ones by their own numbers. */
  lemma NumbersGiven(requests: seq<Request>, k: nat)
    requires k < |requests| && AllAnswered(requests, |requests|)
    ensures Answer(NextAfter(requests, k), requests[k]) == Ok(if requests[k].Auto? then k else requests[k].id)
  {
    hide AllAnswered, NextAfter;
    NumberingIsUniform(requests, |requests|);
    NumberingIsUniform(requests, k);
  }
}
