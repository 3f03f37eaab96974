/**
 The printf-style formatter: one scan over the format string that copies text, reads
 directives and asks for arguments.
 */
module PrintfFormat {
  import opened Escapes
  import opened Wrappers
  import opened FormatArgs

  // What a conversion prints is left to the argument's own formatter; here a conversion is recorded
  // with its specification and the arguments it used. Reading past the end of the string gives NUL,
  // as for a terminated string.

  const NUL: char := '\0'
  const INT_MAX: int := 0x7FFF_FFFF

  datatype Align = Left | Right | Numeric
  datatype Sign = NoSign | Plus | Space
  datatype Length = NoLength | HH | H | L | LL | J | Z | T | LongDouble

  datatype Specs = Specs(width: int, precision: int, align: Align, fill: char, sign: Sign, alt: bool, conversion: char)

  const DEFAULT_SPECS := Specs(0, -1, Right, ' ', NoSign, false, NUL)

  /** An argument, as far as the scan looks at it. */
  datatype PrintfArg = IntArg(value: int) | FloatArg | CStringArg | OtherArg

  datatype Error = TooBig | ArgumentNotFound | WidthNotInteger | PrecisionNotInteger | Numbering(e: IndexError) | InvalidFormat

  /** What is written: text as it is, or a conversion with the argument numbers it asked for, in order. */
  datatype Piece = Text(text: string) | Conversion(specs: Specs, length: Length, ids: seq<int>)

  /** The arguments asked for so far, and the numbers given. */
  datatype Asked = Asked(requests: seq<Request>, ids: seq<int>)

  const NOTHING_ASKED := Asked([], [])

  function Next(a: Asked): int { NextAfter(a.requests, |a.requests|) }

  function At(s: string, i: nat): char { if i < |s| then s[i] else NUL }

  predicate IsDigit(c: char) { '0' <= c <= '9' }

  // ---------------------------------------------------------------------------
  // Numbers
  // ---------------------------------------------------------------------------

  /** The end of the run of digits at i. */
  function DigitEnd(s: string, i: nat): (j: nat)
    requires i <= |s|
    ensures i <= j <= |s|
    ensures forall k :: i <= k < j ==> IsDigit(s[k])
    ensures j < |s| ==> !IsDigit(s[j])
    decreases |s| - i
  {
    if i < |s| && IsDigit(s[i]) then DigitEnd(s, i + 1) else i
  }

  function Digit(c: char): (d: nat)
    requires IsDigit(c)
    ensures d <= 9
  {
    (c as int) - ('0' as int)
  }

  /** The number spelled by s[i..j]. */
  function Number(s: string, i: nat, j: nat): nat
    requires i <= j <= |s| && forall k :: i <= k < j ==> IsDigit(s[k])
    decreases j
  {
    if i == j then 0 else 10 * Number(s, i, j - 1) + Digit(s[j - 1])
  }

  lemma {:induction false} NumberGrows(s: string, i: nat, j: nat, k: nat)
    requires i <= j <= k <= |s| && forall m :: i <= m < k ==> IsDigit(s[m])
    ensures Number(s, i, j) <= Number(s, i, k)
  {
    if j < k {
      NumberGrows(s, i, j, k - 1);
    }
  }

  function ParsedInt(s: string, i: nat): Result<nat, Error>
    requires i <= |s|
  {
    var value := Number(s, i, DigitEnd(s, i));
    if value > INT_MAX then Err(TooBig) else Ok(value)
  }

  /**
   Reads the digits at `it` in 32-bit unsigned arithmetic, which never wraps: the early exit and
   the final check report exactly the numbers that do not fit an int.
   */
  method ParseNonNegativeInt(s: string, begin: nat) returns (r: Result<nat, Error>, it: nat)
    requires begin < |s| && IsDigit(s[begin])
    ensures r == ParsedInt(s, begin)
    ensures r.Ok? ==> it == DigitEnd(s, begin)
  {
    hide Number;
    it := begin;
    var value := 0;
    var big := INT_MAX / 10;
    NumberEmpty(s, begin);
    while it < |s| && IsDigit(s[it])
      invariant begin <= it <= |s| && DigitEnd(s, it) == DigitEnd(s, begin) && it <= DigitEnd(s, begin)
      invariant value == Number(s, begin, it) < 0x1_0000_0000
      decreases |s| - it
    {
      NumberStep(s, begin, it + 1);
      NumberGrows(s, begin, it + 1, DigitEnd(s, begin));
      if value > big {
        return Err(TooBig), it;
      }
      value := value * 10 + Digit(s[it]);
      it := it + 1;
    }
    if value > INT_MAX {
      return Err(TooBig), it;
    }
    return Ok(value), it;
  }

  lemma NumberEmpty(s: string, i: nat)
    requires i <= |s|
    ensures Number(s, i, i) == 0
  {
  }

  lemma NumberStep(s: string, i: nat, j: nat)
    requires i < j <= |s| && forall k :: i <= k < j ==> IsDigit(s[k])
    ensures Number(s, i, j) == 10 * Number(s, i, j - 1) + Digit(s[j - 1])
  {
  }

  // ---------------------------------------------------------------------------
  // Flags
  // ---------------------------------------------------------------------------

  predicate IsFlag(c: char) { c in "-+0 #" }

  function WithFlag(specs: Specs, c: char): Specs {
    match c
    case '-' => specs.(align := Left)
    case '+' => specs.(sign := Plus)
    case '0' => specs.(fill := '0')
    case ' ' => if specs.sign.Plus? then specs else specs.(sign := Space)
    case '#' => specs.(alt := true)
    case _ => specs
  }

  function FlagsEnd(s: string, i: nat): (j: nat)
    requires i <= |s|
    ensures i <= j <= |s|
    decreases |s| - i
  {
    if i < |s| && IsFlag(s[i]) then FlagsEnd(s, i + 1) else i
  }

  /** The specification after the flags s[i..j]. */
  function WithFlags(specs: Specs, s: string, i: nat, j: nat): Specs
    requires i <= j <= |s|
    decreases j
  {
    if i == j then specs else WithFlag(WithFlags(specs, s, i, j - 1), s[j - 1])
  }

  method ParseFlags(s: string, begin: nat, start: Specs) returns (specs: Specs, it: nat)
    requires begin <= |s|
    ensures it == FlagsEnd(s, begin) && specs == WithFlags(start, s, begin, it)
  {
    it := begin;
    specs := start;
    while it != |s|
      invariant begin <= it <= |s| && FlagsEnd(s, it) == FlagsEnd(s, begin)
      invariant specs == WithFlags(start, s, begin, it)
      decreases |s| - it
    {
      match s[it] {
        case '-' => specs := specs.(align := Left);
        case '+' => specs := specs.(sign := Plus);
        case '0' => specs := specs.(fill := '0');
        case ' ' =>
          if !specs.sign.Plus? {
            specs := specs.(sign := Space);
          }
        case '#' => specs := specs.(alt := true);
        case _ => return;
      }
      it := it + 1;
    }
  }

  // ---------------------------------------------------------------------------
  // Arguments
  // ---------------------------------------------------------------------------

  datatype Got = Got(arg: PrintfArg, id: int, asked: Asked)

  function GetArg(asked: Asked, args: seq<PrintfArg>, r: Request): Result<Got, Error> {
    match Answer(Next(asked), r)
    case Err(e) => Err(Numbering(e))
    case Ok(id) =>
      if 0 <= id < |args| then Ok(Got(args[id], id, Asked(asked.requests + [r], asked.ids + [id])))
      else Err(ArgumentNotFound)
  }

  /** An argument used as a width: its magnitude, to the left if it is negative. */
  function StarWidth(specs: Specs, arg: PrintfArg): Result<Specs, Error> {
    if !arg.IntArg? then Err(WidthNotInteger)
    else
      var width := if arg.value < 0 then -arg.value else arg.value;
      if width > INT_MAX then Err(TooBig)
      else Ok(specs.(width := width, align := if arg.value < 0 then Left else specs.align))
  }

  function StarPrecision(specs: Specs, arg: PrintfArg): Result<Specs, Error> {
    if !arg.IntArg? then Err(PrecisionNotInteger)
    else if arg.value > INT_MAX || arg.value < -INT_MAX - 1 then Err(TooBig)
    else Ok(specs.(precision := if arg.value > 0 then arg.value else 0))
  }

  // ---------------------------------------------------------------------------
  // Directives
  // ---------------------------------------------------------------------------

  /** What a directive has read so far: the argument index if one was written, and where it stands. */
  datatype Part = Part(index: Option<nat>, specs: Specs, it: nat, asked: Asked)

  /** Flags, then a width in digits, from an argument, or none. */
  function FlagsAndWidth(s: string, i: nat, index: Option<nat>, start: Specs, asked: Asked, args: seq<PrintfArg>): Result<Part, Error>
    requires i <= |s|
  {
    var j := FlagsEnd(s, i);
    var specs := WithFlags(start, s, i, j);
    if j < |s| && IsDigit(s[j]) then
      match ParsedInt(s, j)
      case Err(e) => Err(e)
      case Ok(width) => Ok(Part(index, specs.(width := width), DigitEnd(s, j), asked))
    else if j < |s| && s[j] == '*' then
      match GetArg(asked, args, Auto)
      case Err(e) => Err(e)
      case Ok(got) =>
        match StarWidth(specs, got.arg)
        case Err(e) => Err(e)
        case Ok(wide) => Ok(Part(index, wide, j + 1, got.asked))
    else Ok(Part(index, specs, j, asked))
  }

  /** A leading number is an argument index before '$', else a width with an optional zero flag. */
  function Header(s: string, i: nat, asked: Asked, args: seq<PrintfArg>): Result<Part, Error>
    requires i <= |s|
  {
    if !IsDigit(At(s, i)) then FlagsAndWidth(s, i, None, DEFAULT_SPECS, asked, args)
    else
      match ParsedInt(s, i)
      case Err(e) => Err(e)
      case Ok(value) =>
        var j := DigitEnd(s, i);
        if At(s, j) == '$' then FlagsAndWidth(s, j + 1, Some(value), DEFAULT_SPECS, asked, args)
        else
          var specs := if s[i] == '0' then DEFAULT_SPECS.(fill := '0') else DEFAULT_SPECS;
          if value != 0 then Ok(Part(None, specs.(width := value), j, asked))
          else FlagsAndWidth(s, j, None, specs, asked, args)
  }

  function Precision(s: string, p: Part, args: seq<PrintfArg>): Result<Part, Error>
    requires p.it <= |s|
  {
    var i := p.it + 1;
    if At(s, p.it) != '.' then Ok(p)
    else if IsDigit(At(s, i)) then
      match ParsedInt(s, i)
      case Err(e) => Err(e)
      case Ok(value) => Ok(p.(specs := p.specs.(precision := value), it := DigitEnd(s, i)))
    else if At(s, i) == '*' then
      match GetArg(p.asked, args, Auto)
      case Err(e) => Err(e)
      case Ok(got) =>
        match StarPrecision(p.specs, got.arg)
        case Err(e) => Err(e)
        case Ok(specs) => Ok(p.(specs := specs, it := i + 1, asked := got.asked))
    else Ok(p.(specs := p.specs.(precision := 0), it := i))
  }

  /** What the argument's kind makes of precision, '#' and '0'. */
  function Adjusted(specs: Specs, arg: PrintfArg): Specs {
    var s1 := if specs.precision >= 0 && arg.IntArg? then specs.(fill := ' ') else specs;
    var s2 := if s1.alt && arg == IntArg(0) then s1.(alt := false) else s1;
    if s2.fill != '0' then s2
    else if (arg.IntArg? || arg.FloatArg?) && !s2.align.Left? then s2.(align := Numeric)
    else s2.(fill := ' ')
  }

  /** The length modifier at i and where it ends; at the end of the string one step back. */
  function LengthAt(s: string, i: nat): (r: (Length, int))
    requires 0 < i <= |s|
    ensures i - 1 <= r.1 <= |s|
  {
    if i == |s| then (NoLength, i - 1)
    else
      match s[i]
      case 'h' => if At(s, i + 1) == 'h' then (HH, i + 2) else (H, i + 1)
      case 'l' => if At(s, i + 1) == 'l' then (LL, i + 2) else (L, i + 1)
      case 'j' => (J, i + 1)
      case 'z' => (Z, i + 1)
      case 't' => (T, i + 1)
      case 'L' => (LongDouble, i + 1)
      case _ => (NoLength, i)
  }

  function Normalized(c: char, arg: PrintfArg): char {
    if arg.IntArg? && (c == 'i' || c == 'u') then 'd' else c
  }

  datatype Directive = Directive(piece: Piece, end: nat, asked: Asked)

  function Finish(s: string, p: Part, before: nat, args: seq<PrintfArg>): Result<Directive, Error>
    requires 0 < p.it <= |s| && before <= |p.asked.ids|
  {
    match GetArg(p.asked, args, if p.index.Some? then Manual(p.index.value - 1) else Auto)
    case Err(e) => Err(e)
    case Ok(got) =>
      var length := LengthAt(s, p.it);
      if length.1 == |s| then Err(InvalidFormat)
      else
        var specs := Adjusted(p.specs, got.arg).(conversion := Normalized(s[length.1], got.arg));
        Ok(Directive(Conversion(specs, length.0, p.asked.ids[before..] + [got.id]), length.1 + 1, got.asked))
  }

  lemma HeaderStays(s: string, i: nat, asked: Asked, args: seq<PrintfArg>)
    requires i <= |s| && Header(s, i, asked, args).Ok?
    ensures var p := Header(s, i, asked, args).value; i <= p.it <= |s| && |asked.ids| <= |p.asked.ids|
  {
  }

  lemma PrecisionStays(s: string, p: Part, args: seq<PrintfArg>)
    requires p.it <= |s| && Precision(s, p, args).Ok?
    ensures var q := Precision(s, p, args).value; p.it <= q.it <= |s| && |p.asked.ids| <= |q.asked.ids|
  {
  }

  /** The directive whose text starts at i, just behind its percent sign. */
  function ReadDirective(s: string, i: nat, asked: Asked, args: seq<PrintfArg>): (r: Result<Directive, Error>)
    requires 0 < i <= |s|
    ensures r.Ok? ==> i <= r.value.end <= |s|
  {
    match Header(s, i, asked, args)
    case Err(e) => Err(e)
    case Ok(p) =>
      HeaderStays(s, i, asked, args);
      if p.index == Some(0) then Err(ArgumentNotFound)
      else
        match Precision(s, p, args)
        case Err(e) => Err(e)
        case Ok(q) =>
          PrecisionStays(s, p, args);
          Finish(s, q, |asked.ids|, args)
  }

  // ---------------------------------------------------------------------------
  // The scan
  // ---------------------------------------------------------------------------

  datatype Output = Output(pieces: seq<Piece>, asked: Asked)

  /** The scan standing at `it`, with the text from `start` not yet copied. */
  function Scan(s: string, args: seq<PrintfArg>, start: nat, it: nat, out: Output): Result<Output, Error>
    requires start <= it <= |s|
    decreases |s| - it
  {
    if it == |s| then Ok(out.(pieces := out.pieces + [Text(s[start..it])]))
    else if s[it] != '%' then Scan(s, args, start, it + 1, out)
    else if At(s, it + 1) == '%' then Scan(s, args, it + 2, it + 2, out.(pieces := out.pieces + [Text(s[start..it + 1])]))
    else
      match ReadDirective(s, it + 1, out.asked, args)
      case Err(e) => Err(e)
      case Ok(d) => Scan(s, args, d.end, d.end, Output(out.pieces + [Text(s[start..it]), d.piece], d.asked))
  }

  function Format(s: string, args: seq<PrintfArg>): Result<Output, Error> {
    Scan(s, args, 0, 0, Output([], NOTHING_ASKED))
  }

  // ---------------------------------------------------------------------------
  // The formatter, as it works
  // ---------------------------------------------------------------------------

  lemma {:induction false} NextAfterPrefix(requests: seq<Request>, more: seq<Request>, k: nat)
    requires k <= |requests|
    ensures NextAfter(requests + more, k) == NextAfter(requests, k)
  {
    if k > 0 {
      NextAfterPrefix(requests, more, k - 1);
    }
  }

  lemma NextSnoc(a: Asked, r: Request, id: int)
    ensures Next(Asked(a.requests + [r], a.ids + [id])) == Advance(Next(a), r)
  {
    NextAfterPrefix(a.requests, [r], |a.requests|);
  }

  class PrintfContext {
    const format: string
    const args: seq<PrintfArg>
    const parseCtx: ParseContext
    var out: seq<Piece>
    var asked: Asked  // history: the program reads only the context's counter

    predicate Valid()
      reads this, parseCtx
    {
      parseCtx.nextArgId == Next(asked)
    }

    constructor (format: string, args: seq<PrintfArg>)
      ensures Valid() && fresh(parseCtx)
      ensures this.format == format && this.args == args && out == [] && asked == NOTHING_ASKED
    {
      this.format := format;
      this.args := args;
      parseCtx := new ParseContext();
      out := [];
      asked := NOTHING_ASKED;
    }

    /** The argument of that index, counted from one, or the next argument for -1. */
    method DoGetArg(argIndex: int) returns (r: Result<Got, Error>)
      requires Valid()
      modifies this`asked, parseCtx
      ensures r == GetArg(old(asked), args, if argIndex < 0 then Auto else Manual(argIndex - 1))
      ensures r.Ok? ==> Valid() && asked == r.value.asked
    {
      hide NextAfter;
      var request := if argIndex < 0 then Auto else Manual(argIndex - 1);
      var id;
      if argIndex < 0 {
        id := parseCtx.NextArgId();
      } else {
        id := parseCtx.CheckArgId(argIndex - 1);
      }
      match id {
        case Err(e) => return Err(Numbering(e));
        case Ok(i) =>
          if i < 0 || i >= |args| {
            return Err(ArgumentNotFound);
          }
          NextSnoc(asked, request, i);
          asked := Asked(asked.requests + [request], asked.ids + [i]);
          return Ok(Got(args[i], i, asked));
      }
    }

    method DoFlagsAndWidth(begin: nat, index: Option<nat>, start: Specs) returns (r: Result<Part, Error>)
      requires Valid() && begin <= |format|
      modifies this`asked, parseCtx
      ensures r == FlagsAndWidth(format, begin, index, start, old(asked), args)
      ensures r.Ok? ==> Valid() && asked == r.value.asked
    {
      hide NextAfter, WithFlags, GetArg;
      var specs, it := ParseFlags(format, begin, start);
      if it != |format| {
        if IsDigit(format[it]) {
          var width;
          width, it := ParseNonNegativeInt(format, it);
          match width {
            case Err(e) => return Err(e);
            case Ok(w) => specs := specs.(width := w);
          }
        } else if format[it] == '*' {
          it := it + 1;
          var got := DoGetArg(-1);
          match got {
            case Err(e) => return Err(e);
            case Ok(g) =>
              match StarWidth(specs, g.arg) {
                case Err(e) => return Err(e);
                case Ok(wide) => specs := wide;
              }
          }
        }
      }
      return Ok(Part(index, specs, it, asked));
    }

    method DoParseHeader(begin: nat) returns (r: Result<Part, Error>)
      requires Valid() && begin <= |format|
      modifies this`asked, parseCtx
      ensures r == Header(format, begin, old(asked), args)
      ensures r.Ok? ==> Valid() && asked == r.value.asked
    {
      hide NextAfter, FlagsAndWidth, Number;
      var it := begin;
      var index: Option<nat> := None;
      var specs := DEFAULT_SPECS;
      var c := At(format, it);
      if IsDigit(c) {
        var value;
        value, it := ParseNonNegativeInt(format, it);
        match value {
          case Err(e) => return Err(e);
          case Ok(v) =>
            if it != |format| && format[it] == '$' {
              it := it + 1;
              index := Some(v);
            } else {
              if c == '0' {
                specs := specs.(fill := '0');
              }
              if v != 0 {
                return Ok(Part(None, specs.(width := v), it, asked));
              }
            }
        }
      }
      r := DoFlagsAndWidth(it, index, specs);
    }

    method DoPrecision(p: Part) returns (r: Result<Part, Error>)
      requires Valid() && p.it <= |format| && p.asked == asked
      modifies this`asked, parseCtx
      ensures r == Precision(format, p, args)
      ensures r.Ok? ==> Valid() && asked == r.value.asked
    {
      hide NextAfter, GetArg, Number;
      if p.it == |format| || format[p.it] != '.' {
        return Ok(p);
      }
      var it := p.it + 1;
      var c := At(format, it);
      if IsDigit(c) {
        var value;
        value, it := ParseNonNegativeInt(format, it);
        match value {
          case Err(e) => return Err(e);
          case Ok(v) => return Ok(p.(specs := p.specs.(precision := v), it := it));
        }
      } else if c == '*' {
        it := it + 1;
        var got := DoGetArg(-1);
        match got {
          case Err(e) => return Err(e);
          case Ok(g) =>
            match StarPrecision(p.specs, g.arg) {
              case Err(e) => return Err(e);
              case Ok(specs) => return Ok(p.(specs := specs, it := it, asked := asked));
            }
        }
      }
      return Ok(p.(specs := p.specs.(precision := 0), it := it));
    }

    method DoFinish(p: Part, before: nat) returns (r: Result<Directive, Error>)
      requires Valid() && 0 < p.it <= |format| && p.asked == asked && before <= |asked.ids|
      modifies this`asked, parseCtx
      ensures r == Finish(format, p, before, args)
      ensures r.Ok? ==> Valid() && asked == r.value.asked
    {
      hide NextAfter, GetArg, Adjusted;
      var got := DoGetArg(if p.index.Some? then p.index.value else -1);
      match got {
        case Err(e) => return Err(e);
        case Ok(g) =>
          var (length, it) := LengthAt(format, p.it);
          if it == |format| {
            return Err(InvalidFormat);
          }
          var specs := Adjusted(p.specs, g.arg).(conversion := Normalized(format[it], g.arg));
          return Ok(Directive(Conversion(specs, length, p.asked.ids[before..] + [g.id]), it + 1, asked));
      }
    }

    method DoDirective(begin: nat) returns (r: Result<Directive, Error>)
      requires Valid() && 0 < begin <= |format|
      modifies this`asked, parseCtx
      ensures r == ReadDirective(format, begin, old(asked), args)
      ensures r.Ok? ==> Valid() && asked == r.value.asked
    {
      hide NextAfter, Header, Precision, Finish;
      ghost var before := asked;
      var count := |asked.ids|;
      var header := DoParseHeader(begin);
      match header {
        case Err(e) => return Err(e);
        case Ok(p) =>
          HeaderStays(format, begin, before, args);
          if p.index == Some(0) {
            return Err(ArgumentNotFound);
          }
          var precision := DoPrecision(p);
          match precision {
            case Err(e) => return Err(e);
            case Ok(q) =>
              PrecisionStays(format, p, args);
              r := DoFinish(q, count);
          }
      }
    }

    method DoFormat() returns (error: Option<Error>)
      requires Valid() && out == [] && asked == NOTHING_ASKED
      modifies this`out, this`asked, parseCtx
      ensures Format(format, args) == if error.Some? then Err(error.value) else Ok(Output(out, asked))
    {
      hide NextAfter, ReadDirective;
      var start, it := 0, 0;
      while it != |format|
        invariant 0 <= start <= it <= |format| && Valid()
        invariant Scan(format, args, start, it, Output(out, asked)) == Format(format, args)
        decreases |format| - it
      {
        var c := format[it];
        it := it + 1;
        if c != '%' {
          continue;
        }
        if it != |format| && format[it] == c {
          out := out + [Text(format[start..it])];
          it := it + 1;
          start := it;
          continue;
        }
        var directive := DoDirective(it);
        match directive {
          case Err(e) => return Some(e);
          case Ok(d) =>
            out := out + [Text(format[start..it - 1]), d.piece];
            it := d.end;
            start := it;
        }
      }
      out := out + [Text(format[start..it])];
      return None;
    }
  }

  // ---------------------------------------------------------------------------
  // The header reads what the plain grammar reads
  // ---------------------------------------------------------------------------

  predicate Zeros(s: string, i: nat, j: nat)
    requires i <= j <= |s|
  {
    forall k :: i <= k < j ==> s[k] == '0'
  }

  lemma {:induction false} FlagsEndOverZeros(s: string, i: nat, j: nat)
    requires i <= j <= |s| && Zeros(s, i, j)
    ensures FlagsEnd(s, i) == FlagsEnd(s, j)
    decreases j - i
  {
    if i < j {
      FlagsEndOverZeros(s, i + 1, j);
    }
  }

  lemma {:induction false} WithFlagsSplit(start: Specs, s: string, i: nat, j: nat, k: nat)
    requires i <= j <= k <= |s|
    ensures WithFlags(start, s, i, k) == WithFlags(WithFlags(start, s, i, j), s, j, k)
  {
    if j < k {
      WithFlagsSplit(start, s, i, j, k - 1);
    }
  }

  lemma {:induction false} WithZeros(s: string, i: nat, j: nat)
    requires i <= j <= |s| && Zeros(s, i, j)
    ensures WithFlags(DEFAULT_SPECS, s, i, j) == if i < j then DEFAULT_SPECS.(fill := '0') else DEFAULT_SPECS
  {
    if i < j {
      WithZeros(s, i, j - 1);
    }
  }

  lemma {:induction false} NumberAfterZeros(s: string, i: nat, z: nat, j: nat)
    requires i <= z <= j <= |s| && Zeros(s, i, z) && forall k :: i <= k < j ==> IsDigit(s[k])
    ensures Number(s, i, j) == Number(s, z, j)
  {
    if z < j {
      NumberAfterZeros(s, i, z, j - 1);
    } else if i < z {
      NumberAfterZeros(s, i, z - 1, j - 1);
    }
  }

  /** The zeros that open a run of digits. */
  function ZerosEnd(s: string, i: nat): (z: nat)
    requires i <= |s|
    ensures i <= z <= DigitEnd(s, i) && Zeros(s, i, z)
    ensures z < |s| ==> s[z] != '0'
    ensures DigitEnd(s, z) == DigitEnd(s, i)
    decreases |s| - i
  {
    if i < |s| && s[i] == '0' then ZerosEnd(s, i + 1) else i
  }

  lemma {:induction false} NumberPositive(s: string, z: nat, j: nat)
    requires z < j <= |s| && s[z] != '0' && forall k :: z <= k < j ==> IsDigit(s[k])
    ensures Number(s, z, j) > 0
  {
    if z < j - 1 {
      NumberPositive(s, z, j - 1);
    } else {
      NumberEmpty(s, z);
    }
  }

  /**
   Unless a '$' follows, reading the leading number at once gives the same as reading flags and
   then the width: the same specification, position, arguments asked for and errors.
   */
  lemma HeaderIsFlagsAndWidth(s: string, i: nat, asked: Asked, args: seq<PrintfArg>)
    requires i <= |s| && !(IsDigit(At(s, i)) && At(s, DigitEnd(s, i)) == '$')
    ensures Header(s, i, asked, args) == FlagsAndWidth(s, i, None, DEFAULT_SPECS, asked, args)
  {
    hide Number, GetArg, StarWidth, WithFlags;
    if IsDigit(At(s, i)) {
      var z, j := ZerosEnd(s, i), DigitEnd(s, i);
      FlagsEndOverZeros(s, i, z);
      WithZeros(s, i, z);
      WithFlagsSplit(DEFAULT_SPECS, s, i, z, FlagsEnd(s, z));
      NumberAfterZeros(s, i, z, j);
      if z < j {
        NumberPositive(s, z, j);
      } else {
        NumberEmpty(s, z);
        assert ParsedInt(s, i) == Ok(0);
      }
    }
  }

  // ---------------------------------------------------------------------------
  // Doubled percent signs
  // ---------------------------------------------------------------------------

  /** The text written when no conversion is. */
  function Printed(pieces: seq<Piece>, k: nat): string
    requires k <= |pieces|
  {
    if k == 0 then "" else Printed(pieces, k - 1) + (if pieces[k - 1].Text? then pieces[k - 1].text else "")
  }

  predicate OnlyText(pieces: seq<Piece>) {
    forall i :: 0 <= i < |pieces| ==> pieces[i].Text?
  }

  lemma {:induction false} PrintedPrefix(pieces: seq<Piece>, more: seq<Piece>, k: nat)
    requires k <= |pieces|
    ensures Printed(pieces + more, k) == Printed(pieces, k)
  {
    if k > 0 {
      PrintedPrefix(pieces, more, k - 1);
    }
  }

  lemma PrintedSnoc(pieces: seq<Piece>, text: string)
    ensures Printed(pieces + [Text(text)], |pieces| + 1) == Printed(pieces, |pieces|) + text
  {
    PrintedPrefix(pieces, [Text(text)], |pieces|);
  }

  ghost predicate Prints(r: Result<Output, Error>, text: string) {
    r.Ok? && OnlyText(r.value.pieces) && Printed(r.value.pieces, |r.value.pieces|) == text
  }

  /** From character j of the text on, what is pending and what is left are printed as they are. */
  lemma {:induction false} ScanDoubled(text: string, j: nat, args: seq<PrintfArg>, start: nat, out: Output)
    requires j <= |text| && start <= |Doubled(text, PERCENT, j)| <= |Doubled(text, PERCENT, |text|)|
    requires OnlyText(out.pieces)
    ensures Prints(Scan(Doubled(text, PERCENT, |text|), args, start, |Doubled(text, PERCENT, j)|, out),
                   Printed(out.pieces, |out.pieces|) + Doubled(text, PERCENT, |text|)[start..|Doubled(text, PERCENT, j)|] + text[j..])
    decreases |text| - j
  {
    hide Doubled, ReadDirective, Printed;
    var s, it := Doubled(text, PERCENT, |text|), |Doubled(text, PERCENT, j)|;
    var before := Printed(out.pieces, |out.pieces|);
    if j == |text| {
      PrintedSnoc(out.pieces, s[start..it]);
      assert text[j..] == "";
      assert before + s[start..it] + "" == before + s[start..it];
    } else {
      DoubledAt(text, PERCENT, j);
      assert text[j..] == [text[j]] + text[j + 1..];
      if text[j] != '%' {
        DoubledGrows(text, PERCENT, j + 1);
        ScanDoubled(text, j + 1, args, start, out);
        assert s[start..it + 1] == s[start..it] + [text[j]];
        Regroup(before, s[start..it], [text[j]], text[j + 1..]);
      } else {
        DoubledGrows(text, PERCENT, j + 1);
        var copied := out.(pieces := out.pieces + [Text(s[start..it + 1])]);
        PrintedSnoc(out.pieces, s[start..it + 1]);
        ScanDoubled(text, j + 1, args, it + 2, copied);
        assert s[it + 2..it + 2] == "";
        assert s[start..it + 1] == s[start..it] + [text[j]];
        Regroup(before, s[start..it], [text[j]], text[j + 1..]);
        assert before + s[start..it + 1] + "" == before + s[start..it + 1];
      }
    }
  }

  /** Any text with each percent sign doubled prints that text, whatever the arguments. */
  lemma {:induction false} DoubledPrintsText(text: string, args: seq<PrintfArg>)
    ensures Prints(Format(Doubled(text, PERCENT, |text|), args), text)
  {
    hide Scan, Prints;
    assert Doubled(text, PERCENT, 0) == "";
    assert Printed([], 0) == "";
    ScanDoubled(text, 0, args, 0, Output([], NOTHING_ASKED));
    assert "" + Doubled(text, PERCENT, |text|)[0..0] + text[0..] == text;
  }

  // ---------------------------------------------------------------------------
  // Numbering
  // ---------------------------------------------------------------------------

  /** All requests were answered, by the numbers recorded, and each is an argument. */
  ghost predicate Answered(a: Asked, args: seq<PrintfArg>) {
    && |a.ids| == |a.requests|
    && AllAnswered(a.requests, |a.requests|)
    && forall k :: 0 <= k < |a.ids| ==> 0 <= a.ids[k] < |args| && Ok(a.ids[k]) == AnswerAt(a.requests, k)
  }

  function AnswerAt(requests: seq<Request>, k: nat): Result<int, IndexError>
    requires k < |requests|
  {
    Answer(NextAfter(requests, k), requests[k])
  }

  lemma {:induction false} AllAnsweredPrefix(requests: seq<Request>, more: seq<Request>, k: nat)
    requires k <= |requests|
    ensures AllAnswered(requests + more, k) == AllAnswered(requests, k)
  {
    if k > 0 {
      AllAnsweredPrefix(requests, more, k - 1);
      NextAfterPrefix(requests, more, k - 1);
    }
  }

  lemma GetArgAnswered(asked: Asked, args: seq<PrintfArg>, r: Request)
    requires Answered(asked, args) && GetArg(asked, args, r).Ok?
    ensures Answered(GetArg(asked, args, r).value.asked, args)
    ensures GetArg(asked, args, r).value.asked.ids == asked.ids + [GetArg(asked, args, r).value.id]
  {
    hide NextAfter;
    var a := GetArg(asked, args, r).value.asked;
    AllAnsweredPrefix(asked.requests, [r], |asked.requests|);
    NextAfterPrefix(asked.requests, [r], |asked.requests|);
    forall k | 0 <= k < |a.ids| ensures 0 <= a.ids[k] < |args| && Ok(a.ids[k]) == AnswerAt(a.requests, k) {
      NextAfterPrefix(asked.requests, [r], if k < |asked.requests| then k else 0);
      if k < |asked.ids| {
        assert Ok(asked.ids[k]) == AnswerAt(asked.requests, k);
      }
    }
  }

  lemma FlagsAndWidthAnswered(s: string, i: nat, index: Option<nat>, start: Specs, asked: Asked, args: seq<PrintfArg>)
    requires i <= |s| && Answered(asked, args) && FlagsAndWidth(s, i, index, start, asked, args).Ok?
    ensures var p := FlagsAndWidth(s, i, index, start, asked, args).value;
      Answered(p.asked, args) && asked.ids <= p.asked.ids && i <= p.it <= |s|
  {
    hide Answered, GetArg, WithFlags, Number, StarWidth;
    if GetArg(asked, args, Auto).Ok? {
      GetArgAnswered(asked, args, Auto);
    }
  }

  lemma HeaderAnswered(s: string, i: nat, asked: Asked, args: seq<PrintfArg>)
    requires i <= |s| && Answered(asked, args) && Header(s, i, asked, args).Ok?
    ensures var p := Header(s, i, asked, args).value;
      Answered(p.asked, args) && asked.ids <= p.asked.ids && i <= p.it <= |s|
  {
    hide Answered, FlagsAndWidth, Number;
    var j := DigitEnd(s, i);
    if FlagsAndWidth(s, i, None, DEFAULT_SPECS, asked, args).Ok? {
      FlagsAndWidthAnswered(s, i, None, DEFAULT_SPECS, asked, args);
    }
    if IsDigit(At(s, i)) && ParsedInt(s, i).Ok? {
      var value := ParsedInt(s, i).value;
      if At(s, j) == '$' {
        FlagsAndWidthAnswered(s, j + 1, Some(value), DEFAULT_SPECS, asked, args);
      } else if value == 0 {
        FlagsAndWidthAnswered(s, j, None, if s[i] == '0' then DEFAULT_SPECS.(fill := '0') else DEFAULT_SPECS, asked, args);
      }
    }
  }

  lemma PrecisionAnswered(s: string, p: Part, args: seq<PrintfArg>)
    requires p.it <= |s| && Answered(p.asked, args) && Precision(s, p, args).Ok?
    ensures var q := Precision(s, p, args).value; Answered(q.asked, args) && p.asked.ids <= q.asked.ids && p.it <= q.it <= |s|
  {
    hide Answered, GetArg, Number, StarPrecision;
    if GetArg(p.asked, args, Auto).Ok? {
      GetArgAnswered(p.asked, args, Auto);
    }
  }

  lemma DirectiveAnswered(s: string, i: nat, asked: Asked, args: seq<PrintfArg>)
    requires 0 < i <= |s| && Answered(asked, args) && ReadDirective(s, i, asked, args).Ok?
    ensures var d := ReadDirective(s, i, asked, args).value;
      Answered(d.asked, args) && d.piece.Conversion? && d.asked.ids == asked.ids + d.piece.ids
  {
    hide Answered, GetArg, Header, Precision, LengthAt, Adjusted;
    HeaderAnswered(s, i, asked, args);
    var p := Header(s, i, asked, args).value;
    PrecisionAnswered(s, p, args);
    var q := Precision(s, p, args).value;
    var r := if q.index.Some? then Manual(q.index.value - 1) else Auto;
    GetArgAnswered(q.asked, args, r);
    assert asked.ids <= q.asked.ids;
    assert q.asked.ids == asked.ids + q.asked.ids[|asked.ids|..];
  }

  /** The argument numbers used by the conversions written, widths and precisions included, in order. */
  function UsedIds(pieces: seq<Piece>, k: nat): seq<int>
    requires k <= |pieces|
  {
    if k == 0 then [] else UsedIds(pieces, k - 1) + (if pieces[k - 1].Conversion? then pieces[k - 1].ids else [])
  }

  lemma {:induction false} UsedIdsPrefix(pieces: seq<Piece>, more: seq<Piece>, k: nat)
    requires k <= |pieces|
    ensures UsedIds(pieces + more, k) == UsedIds(pieces, k)
  {
    if k > 0 {
      UsedIdsPrefix(pieces, more, k - 1);
    }
  }

  lemma UsedIdsSnoc(pieces: seq<Piece>, p: Piece)
    ensures UsedIds(pieces + [p], |pieces| + 1) == UsedIds(pieces, |pieces|) + (if p.Conversion? then p.ids else [])
  {
    UsedIdsPrefix(pieces, [p], |pieces|);
  }

  ghost predicate OutputOk(out: Output, args: seq<PrintfArg>) {
    Answered(out.asked, args) && UsedIds(out.pieces, |out.pieces|) == out.asked.ids
  }

  lemma TextOk(out: Output, text: string, args: seq<PrintfArg>)
    requires OutputOk(out, args)
    ensures OutputOk(out.(pieces := out.pieces + [Text(text)]), args)
  {
    hide Answered, UsedIds;
    UsedIdsSnoc(out.pieces, Text(text));
  }

  lemma ConversionOk(out: Output, text: string, d: Directive, args: seq<PrintfArg>)
    requires OutputOk(out, args) && Answered(d.asked, args) && d.piece.Conversion? && d.asked.ids == out.asked.ids + d.piece.ids
    ensures OutputOk(Output(out.pieces + [Text(text), d.piece], d.asked), args)
  {
    hide Answered, UsedIds;
    UsedIdsSnoc(out.pieces, Text(text));
    UsedIdsSnoc(out.pieces + [Text(text)], d.piece);
    assert out.pieces + [Text(text), d.piece] == out.pieces + [Text(text)] + [d.piece];
  }

  lemma {:induction false} ScanOk(s: string, args: seq<PrintfArg>, start: nat, it: nat, out: Output)
    requires start <= it <= |s| && OutputOk(out, args)
    ensures Scan(s, args, start, it, out).Ok? ==> OutputOk(Scan(s, args, start, it, out).value, args)
    decreases |s| - it
  {
    hide OutputOk, ReadDirective;
    if it == |s| {
      TextOk(out, s[start..it], args);
    } else if s[it] != '%' {
      ScanOk(s, args, start, it + 1, out);
    } else if At(s, it + 1) == '%' {
      TextOk(out, s[start..it + 1], args);
      ScanOk(s, args, it + 2, it + 2, out.(pieces := out.pieces + [Text(s[start..it + 1])]));
    } else {
      match ReadDirective(s, it + 1, out.asked, args) {
        case Err(_) =>
        case Ok(d) =>
          OutputAnswered(out, args);
          DirectiveAnswered(s, it + 1, out.asked, args);
          ConversionOk(out, s[start..it], d, args);
          ScanOk(s, args, d.end, d.end, Output(out.pieces + [Text(s[start..it]), d.piece], d.asked));
      }
    }
  }

  lemma OutputAnswered(out: Output, args: seq<PrintfArg>)
    requires OutputOk(out, args)
    ensures Answered(out.asked, args)
  {
  }

  /**
   Every run without error is numbered uniformly: all arguments, those used as widths and
   precisions included, were asked for automatically and are 0, 1, 2, ... in order, or all were
   asked for by number; and each of them exists.
   */
  lemma NumbersAreUniform(s: string, args: seq<PrintfArg>)
    requires Format(s, args).Ok?
    ensures var out := Format(s, args).value; var ids := UsedIds(out.pieces, |out.pieces|);
      && |ids| == |out.asked.requests|
      && OneKind(out.asked.requests, |ids|)
      && (forall k :: 0 <= k < |ids| ==> 0 <= ids[k] < |args|)
      && (forall k :: 0 <= k < |ids| ==> ids[k] == if out.asked.requests[k].Auto? then k else out.asked.requests[k].id)
  {
    hide Scan, AllAnswered, NextAfter, UsedIds;
    NothingAskedOk(args);
    ScanOk(s, args, 0, 0, Output([], NOTHING_ASKED));
    var a := Format(s, args).value.asked;
    NumberingIsUniform(a.requests, |a.requests|);
    forall k | 0 <= k < |a.ids| ensures a.ids[k] == if a.requests[k].Auto? then k else a.requests[k].id {
      assert Ok(a.ids[k]) == AnswerAt(a.requests, k);
      NumbersGiven(a.requests, k);
    }
  }

  lemma NothingAskedOk(args: seq<PrintfArg>)
    ensures OutputOk(Output([], NOTHING_ASKED), args)
  {
  }
}
