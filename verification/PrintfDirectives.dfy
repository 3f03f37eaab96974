/**
 The text of printf directives: which ones are reported as invalid because the string ends too
 early, and that every other one reads back as it was written.
 */
module PrintfDirectives {
  import opened Wrappers
  import opened FormatArgs
  import opened PrintfFormat

  // ---------------------------------------------------------------------------
  // Cut-off directives
  // ---------------------------------------------------------------------------

  /** The conversion is the string's last character. */
  predicate CutOffBy(s: string, r: Result<Directive, Error>, arg: PrintfArg)
    requires s != ""
  {
    && r.Ok? && r.value.end == |s|
    && r.value.piece.Conversion? && r.value.piece.specs.conversion == Normalized(s[|s| - 1], arg)
  }

  /** The length modifiers, with nothing behind them. */
  const LENGTH_TEXTS: seq<string> := ["h", "l", "j", "z", "t", "L", "hh", "ll"]

  /** The argument a part with its width and precision asks for. */
  function MainRequest(p: Part): Request {
    if p.index.Some? then Manual(p.index.value - 1) else Auto
  }

  lemma CutOffFinish(s: string, p: Part, before: nat, args: seq<PrintfArg>)
    requires 0 < p.it <= |s| && before <= |p.asked.ids| && GetArg(p.asked, args, MainRequest(p)).Ok?
    ensures Finish(s, p, before, args) == Err(InvalidFormat) <==> s[p.it..] in LENGTH_TEXTS
    ensures p.it == |s| ==> CutOffBy(s, Finish(s, p, before, args), GetArg(p.asked, args, MainRequest(p)).value.arg)
  {
    hide GetArg, Adjusted;
    if |s| - p.it == 1 {
      assert s[p.it..] == [s[p.it]];
    } else if |s| - p.it == 2 {
      assert s[p.it..] == [s[p.it], s[p.it + 1]];
    }
  }

  /** A directive read up to its length modifier, with the argument it is for. */
  datatype Stop = Stop(it: nat, arg: PrintfArg)

  /** Where the length modifier of the directive at i begins, if all before it is read and its argument exists. */
  function StopOf(s: string, i: nat, asked: Asked, args: seq<PrintfArg>): Option<Stop>
    requires 0 < i <= |s|
  {
    match Header(s, i, asked, args)
    case Err(_) => None
    case Ok(p) =>
      HeaderStays(s, i, asked, args);
      if p.index == Some(0) then None
      else
        match Precision(s, p, args)
        case Err(_) => None
        case Ok(q) =>
          match GetArg(q.asked, args, MainRequest(q))
          case Err(_) => None
          case Ok(got) => Some(Stop(q.it, got.arg))
  }

  lemma EarlierErrors(s: string, i: nat, asked: Asked, args: seq<PrintfArg>)
    requires i <= |s|
    ensures Header(s, i, asked, args) != Err(InvalidFormat)
  {
    hide Number, WithFlags, FlagsEnd;
  }

  lemma PrecisionErrors(s: string, p: Part, args: seq<PrintfArg>)
    requires p.it <= |s|
    ensures Precision(s, p, args) != Err(InvalidFormat)
  {
    hide Number;
  }

  /**
   A directive is reported as an invalid format if and only if the string ends with its length
   modifier; cut off before that, it takes the last character read as its conversion.
   */
  lemma {:induction false} CutOffDirective(s: string, i: nat, asked: Asked, args: seq<PrintfArg>)
    requires 0 < i <= |s|
    ensures var stop := StopOf(s, i, asked, args);
      && (stop.Some? ==> 0 < stop.value.it <= |s|)
      && (ReadDirective(s, i, asked, args) == Err(InvalidFormat) <==> stop.Some? && s[stop.value.it..] in LENGTH_TEXTS)
      && (stop.Some? && stop.value.it == |s| ==> CutOffBy(s, ReadDirective(s, i, asked, args), stop.value.arg))
      && (stop.None? ==> ReadDirective(s, i, asked, args).Err?)
  {
    hide Header, Precision, GetArg, Finish, CutOffBy;
    EarlierErrors(s, i, asked, args);
    match Header(s, i, asked, args) {
      case Err(_) =>
      case Ok(p) =>
        HeaderStays(s, i, asked, args);
        PrecisionErrors(s, p, args);
        match Precision(s, p, args) {
          case Err(_) =>
          case Ok(q) =>
            PrecisionStays(s, p, args);
            if GetArg(q.asked, args, MainRequest(q)).Ok? {
              CutOffFinish(s, q, |asked.ids|, args);
            } else {
              NoArgumentFinish(s, q, |asked.ids|, args);
            }
        }
    }
  }

  lemma NoArgumentFinish(s: string, p: Part, before: nat, args: seq<PrintfArg>)
    requires 0 < p.it <= |s| && before <= |p.asked.ids| && GetArg(p.asked, args, MainRequest(p)).Err?
    ensures Finish(s, p, before, args).Err? && Finish(s, p, before, args) != Err(InvalidFormat)
  {
  }

  /** The scan from `it` on reaches a directive whose length modifier ends the string. */
  predicate EndsInLength(s: string, args: seq<PrintfArg>, it: nat, asked: Asked)
    requires it <= |s|
    decreases |s| - it
  {
    if it == |s| then false
    else if s[it] != '%' then EndsInLength(s, args, it + 1, asked)
    else if At(s, it + 1) == '%' then EndsInLength(s, args, it + 2, asked)
    else
      match ReadDirective(s, it + 1, asked, args)
      case Ok(d) => EndsInLength(s, args, d.end, d.asked)
      case Err(_) =>
        var stop := StopOf(s, it + 1, asked, args);
        stop.Some? && stop.value.it <= |s| && s[stop.value.it..] in LENGTH_TEXTS
  }

  lemma {:induction false} ScanInvalidIff(s: string, args: seq<PrintfArg>, start: nat, it: nat, out: Output)
    requires start <= it <= |s|
    ensures Scan(s, args, start, it, out) == Err(InvalidFormat) <==> EndsInLength(s, args, it, out.asked)
    decreases |s| - it
  {
    hide ReadDirective, StopOf;
    if it < |s| {
      if s[it] != '%' {
        ScanInvalidIff(s, args, start, it + 1, out);
      } else if At(s, it + 1) == '%' {
        ScanInvalidIff(s, args, it + 2, it + 2, out.(pieces := out.pieces + [Text(s[start..it + 1])]));
      } else {
        CutOffDirective(s, it + 1, out.asked, args);
        match ReadDirective(s, it + 1, out.asked, args) {
          case Err(_) =>
          case Ok(d) => ScanInvalidIff(s, args, d.end, d.end, Output(out.pieces + [Text(s[start..it]), d.piece], d.asked));
        }
      }
    }
  }

  /** For every string and arguments: the error is an invalid format exactly when the scan gets to such a directive. */
  lemma {:induction false} InvalidFormatIff(s: string, args: seq<PrintfArg>)
    ensures Format(s, args) == Err(InvalidFormat) <==> EndsInLength(s, args, 0, NOTHING_ASKED)
  {
    hide Scan, EndsInLength;
    ScanInvalidIff(s, args, 0, 0, Output([], NOTHING_ASKED));
  }

  /** A lone percent sign is formatted, with itself as conversion; one with a length modifier is not. */
  lemma LonePercent()
    ensures Format("%", [IntArg(1)]).Ok? && Format("%h", [IntArg(1)]) == Err(InvalidFormat)
    ensures Format("%", [IntArg(1)]).value.pieces[1].specs.conversion == '%'
  {
    var s, args := "%", [IntArg(1)];
    assert FlagsEnd(s, 1) == 1 && FlagsEnd("%h", 1) == 1;
    assert ReadDirective(s, 1, NOTHING_ASKED, args).Ok?;
    var d := ReadDirective(s, 1, NOTHING_ASKED, args).value;
    assert d.end == 1 && d.piece.specs.conversion == '%';
  }

  // ---------------------------------------------------------------------------
  // Directives read as written
  // ---------------------------------------------------------------------------

  /** A width, or what stands behind the point of a precision: nothing, a number, or an argument. */
  datatype Size = Absent | Digits(n: nat) | Star

  /** A directive: what stands between the percent sign and the text behind it. */
  datatype Written = Written(
    index: Option<nat>, flags: string, width: Size, precision: Option<Size>, length: Length, conversion: char)

  function Decimal(n: nat): (text: string)
    ensures text != "" && forall i :: 0 <= i < |text| ==> IsDigit(text[i])
  {
    if n < 10 then [DigitChar(n)] else Decimal(n / 10) + [DigitChar(n % 10)]
  }

  function DigitChar(d: nat): (c: char)
    requires d < 10
    ensures IsDigit(c) && Digit(c) == d
  {
    ('0' as int + d) as char
  }

  function LengthText(l: Length): string {
    match l
    case NoLength => "" case HH => "hh" case H => "h" case L => "l" case LL => "ll"
    case J => "j" case Z => "z" case T => "t" case LongDouble => "L"
  }

  predicate IsLetter(c: char) { 'a' <= c <= 'z' || 'A' <= c <= 'Z' }

  /** A letter that is no length modifier; width, precision and index fit an int, an index or width is positive. */
  predicate Writable(w: Written) {
    && (forall i :: 0 <= i < |w.flags| ==> IsFlag(w.flags[i]))
    && (w.index.Some? ==> 0 < w.index.value <= INT_MAX)
    && (w.width.Digits? ==> 0 < w.width.n <= INT_MAX)
    && (w.precision.Some? && w.precision.value.Digits? ==> w.precision.value.n <= INT_MAX)
    && IsLetter(w.conversion) && w.conversion !in "hljztL"
  }

  predicate OccursAt(s: string, text: string, i: nat) {
    i + |text| <= |s| && s[i..i + |text|] == text
  }

  /** Where the parts of a directive that stands at i end. */
  datatype Layout = Layout(index: nat, flags: nat, width: nat, precision: nat, length: nat)

  predicate IndexStands(s: string, i: nat, w: Written, l: Layout) {
    if w.index.Some? then
      && OccursAt(s, Decimal(w.index.value), i) && l.index == i + |Decimal(w.index.value)| + 1
      && l.index <= |s| && s[l.index - 1] == '$'
    else l.index == i
  }

  predicate FlagsStand(s: string, w: Written, l: Layout) {
    OccursAt(s, w.flags, l.index) && l.flags == l.index + |w.flags|
  }

  /** A size stands in s from i to j. */
  predicate SizeStands(s: string, size: Size, i: nat, j: nat) {
    match size
    case Absent => i == j
    case Digits(n) => OccursAt(s, Decimal(n), i) && j == i + |Decimal(n)|
    case Star => i < |s| && s[i] == '*' && j == i + 1
  }

  predicate WidthStands(s: string, w: Written, l: Layout) {
    SizeStands(s, w.width, l.flags, l.width)
  }

  predicate PrecisionStands(s: string, w: Written, l: Layout) {
    if w.precision.Some? then l.width < |s| && s[l.width] == '.' && SizeStands(s, w.precision.value, l.width + 1, l.precision)
    else l.precision == l.width
  }

  predicate LengthStands(s: string, w: Written, l: Layout) {
    OccursAt(s, LengthText(w.length), l.precision) && l.length == l.precision + |LengthText(w.length)|
  }

  predicate ConversionStands(s: string, w: Written, l: Layout) {
    LengthStands(s, w, l) && l.length < |s| && s[l.length] == w.conversion
  }

  /** Index, flags, width and precision stand in s at i, part after part. */
  predicate PartsStand(s: string, i: nat, w: Written, l: Layout) {
    IndexStands(s, i, w, l) && FlagsStand(s, w, l) && WidthStands(s, w, l) && PrecisionStands(s, w, l)
  }

  /** The directive stands in s at i. */
  predicate StandsAt(s: string, i: nat, w: Written, l: Layout) {
    PartsStand(s, i, w, l) && ConversionStands(s, w, l)
  }

  /** The directive stands in s at i without its conversion, and the string ends there. */
  predicate StandsCutOff(s: string, i: nat, w: Written, l: Layout) {
    PartsStand(s, i, w, l) && LengthStands(s, w, l) && l.length == |s|
  }

  /** The string ends at j or goes on with a letter. */
  predicate LetterOrEnd(s: string, j: nat) {
    j <= |s| && (j < |s| ==> IsLetter(s[j]))
  }

  /** The parts stand, and what follows cannot be taken for more of them. */
  predicate PartsEnd(s: string, i: nat, w: Written, l: Layout) {
    PartsStand(s, i, w, l) && LetterOrEnd(s, l.precision)
  }

  lemma {:induction false} DecimalIsNumber(s: string, i: nat, n: nat)
    requires OccursAt(s, Decimal(n), i)
    ensures (forall k :: i <= k < i + |Decimal(n)| ==> IsDigit(s[k])) && Number(s, i, i + |Decimal(n)|) == n
    decreases n
  {
    var text := Decimal(n);
    assert forall k :: i <= k < i + |text| ==> s[k] == s[i..i + |text|][k - i];
    if n >= 10 {
      var front := Decimal(n / 10);
      assert s[i..i + |front|] == text[..|front|] == front;
      DecimalIsNumber(s, i, n / 10);
    } else {
      NumberEmpty(s, i);
    }
  }

  lemma {:induction false} DigitRunEnds(s: string, i: nat, j: nat)
    requires i <= j <= |s| && !IsDigit(At(s, j)) && forall k :: i <= k < j ==> IsDigit(s[k])
    ensures DigitEnd(s, i) == j
    decreases j - i
  {
    if i < j {
      DigitRunEnds(s, i + 1, j);
    }
  }

  /** A written number followed by no digit is read as that number. */
  lemma DecimalIsRead(s: string, i: nat, n: nat)
    requires OccursAt(s, Decimal(n), i) && n <= INT_MAX
    requires !IsDigit(At(s, i + |Decimal(n)|))
    ensures IsDigit(s[i]) && ParsedInt(s, i) == Ok(n) && DigitEnd(s, i) == i + |Decimal(n)|
  {
    hide Number, Decimal;
    DecimalIsNumber(s, i, n);
    DigitRunEnds(s, i, i + |Decimal(n)|);
  }

  lemma {:induction false} DecimalNoLeadingZero(n: nat)
    requires n > 0
    ensures Decimal(n)[0] != '0'
  {
    if n >= 10 {
      DecimalNoLeadingZero(n / 10);
    }
  }

  lemma {:induction false} FlagRunEnds(s: string, i: nat, j: nat)
    requires i <= j <= |s| && !IsFlag(At(s, j)) && forall k :: i <= k < j ==> IsFlag(s[k])
    ensures FlagsEnd(s, i) == j
    decreases j - i
  {
    if i < j {
      FlagRunEnds(s, i + 1, j);
    }
  }

  lemma {:induction false} SameFlags(start: Specs, s: string, i: nat, text: string, k: nat)
    requires OccursAt(s, text, i) && k <= |text|
    ensures WithFlags(start, s, i, i + k) == WithFlags(start, text, 0, k)
    decreases k
  {
    if k > 0 {
      SameFlags(start, s, i, text, k - 1);
      assert s[i..i + |text|][k - 1] == text[k - 1];
    }
  }

  /** What stands behind the precision is a letter, or the end. */
  lemma AfterParts(s: string, i: nat, w: Written, l: Layout)
    requires Writable(w) && (StandsAt(s, i, w, l) || StandsCutOff(s, i, w, l))
    ensures PartsEnd(s, i, w, l)
  {
    hide Decimal, IndexStands, FlagsStand, WidthStands, PrecisionStands;
    if w.length != NoLength {
      assert s[l.precision..l.length][0] == LengthText(w.length)[0];
    }
  }

  lemma AfterPrecision(s: string, i: nat, w: Written, l: Layout)
    requires PartsEnd(s, i, w, l)
    ensures l.width <= l.precision <= |s| && (At(s, l.precision) == NUL || IsLetter(At(s, l.precision)))
  {
    hide Decimal, IndexStands, FlagsStand, WidthStands;
  }

  /** What stands behind the width: no flag, no digit, no star, no dollar sign. */
  lemma AfterWidth(s: string, i: nat, w: Written, l: Layout)
    requires PartsEnd(s, i, w, l)
    ensures l.width <= |s| && !IsFlag(At(s, l.width)) && !IsDigit(At(s, l.width)) && At(s, l.width) != '*' && At(s, l.width) != '$'
  {
    hide Decimal, IndexStands, FlagsStand, WidthStands;
    AfterPrecision(s, i, w, l);
  }

  /** What stands behind the flags is none. */
  lemma AfterFlags(s: string, i: nat, w: Written, l: Layout)
    requires Writable(w) && PartsEnd(s, i, w, l)
    ensures l.flags <= l.width <= |s| && !IsFlag(At(s, l.flags))
  {
    hide Decimal, IndexStands, FlagsStand, PrecisionStands;
    AfterWidth(s, i, w, l);
    if w.width.Digits? {
      DecimalNoLeadingZero(w.width.n);
      assert s[l.flags] == s[l.flags..l.width][0];
    }
  }

  lemma FlagsAsWritten(s: string, i: nat, flags: string, j: nat)
    requires OccursAt(s, flags, i) && j == i + |flags| && !IsFlag(At(s, j))
    requires forall k :: 0 <= k < |flags| ==> IsFlag(flags[k])
    ensures FlagsEnd(s, i) == j && WithFlags(DEFAULT_SPECS, s, i, j) == WithFlags(DEFAULT_SPECS, flags, 0, |flags|)
  {
    hide WithFlags, IsFlag;
    assert forall k :: i <= k < j ==> s[k] == s[i..j][k - i];
    FlagRunEnds(s, i, j);
    SameFlags(DEFAULT_SPECS, s, i, flags, |flags|);
  }

  /** What reading a size makes of the specification, and which arguments it asks for. */
  datatype Sized = Sized(specs: Specs, asked: Asked, ids: seq<int>)

  function ReadWidth(w: Written, asked: Asked, args: seq<PrintfArg>): Result<Sized, Error> {
    var specs := WithFlags(DEFAULT_SPECS, w.flags, 0, |w.flags|);
    match w.width
    case Absent => Ok(Sized(specs, asked, []))
    case Digits(n) => Ok(Sized(specs.(width := n), asked, []))
    case Star =>
      match GetArg(asked, args, Auto)
      case Err(e) => Err(e)
      case Ok(got) =>
        match StarWidth(specs, got.arg)
        case Err(e) => Err(e)
        case Ok(wide) => Ok(Sized(wide, got.asked, [got.id]))
  }

  function ReadPrecision(w: Written, specs: Specs, asked: Asked, args: seq<PrintfArg>): Result<Sized, Error> {
    match w.precision
    case None => Ok(Sized(specs, asked, []))
    case Some(Absent) => Ok(Sized(specs.(precision := 0), asked, []))
    case Some(Digits(n)) => Ok(Sized(specs.(precision := n), asked, []))
    case Some(Star) =>
      match GetArg(asked, args, Auto)
      case Err(e) => Err(e)
      case Ok(got) =>
        match StarPrecision(specs, got.arg)
        case Err(e) => Err(e)
        case Ok(precise) => Ok(Sized(precise, got.asked, [got.id]))
  }

  function PartOf(r: Result<Sized, Error>, index: Option<nat>, it: nat): Result<Part, Error> {
    match r
    case Err(e) => Err(e)
    case Ok(sized) => Ok(Part(index, sized.specs, it, sized.asked))
  }

  lemma NumberAsWritten(s: string, i: nat, w: Written, l: Layout)
    requires Writable(w) && PartsEnd(s, i, w, l) && w.width.Digits?
    ensures l.flags < |s| && IsDigit(s[l.flags]) && ParsedInt(s, l.flags) == Ok(w.width.n) && DigitEnd(s, l.flags) == l.width
  {
    hide Decimal, Number, DigitEnd, IndexStands, FlagsStand, PrecisionStands, IsFlag;
    AfterWidth(s, i, w, l);
    DecimalIsRead(s, l.flags, w.width.n);
  }

  lemma {:induction false} FlagsAndWidthAsWritten(s: string, i: nat, w: Written, l: Layout, index: Option<nat>, asked: Asked, args: seq<PrintfArg>)
    requires Writable(w) && PartsEnd(s, i, w, l)
    ensures l.index <= |s|
    ensures FlagsAndWidth(s, l.index, index, DEFAULT_SPECS, asked, args) == PartOf(ReadWidth(w, asked, args), index, l.width)
  {
    AfterFlags(s, i, w, l);
    AfterWidth(s, i, w, l);
    FlagsAsWritten(s, l.index, w.flags, l.flags);
    if w.width.Digits? {
      NumberAsWritten(s, i, w, l);
    }
    hide Decimal, WithFlags, FlagsEnd, Number, ParsedInt, GetArg, StarWidth, DigitEnd, OccursAt, IsFlag,
      IndexStands, PrecisionStands;
  }

  /** Without an index, no dollar sign follows the digits the directive may start with. */
  lemma {:induction false} NoDollar(s: string, i: nat, w: Written, l: Layout)
    requires Writable(w) && PartsEnd(s, i, w, l) && w.index.None?
    ensures At(s, DigitEnd(s, i)) != '$'
  {
    hide Decimal, Number, PrecisionStands;
    AfterWidth(s, i, w, l);
    assert forall k :: i <= k < l.flags ==> s[k] == s[i..i + |w.flags|][k - i];
    if w.width.Digits? {
      DecimalIsNumber(s, l.flags, w.width.n);
    }
    DigitEndBefore(s, i, l.width);
  }

  lemma DigitEndBefore(s: string, i: nat, j: nat)
    requires i <= j <= |s| && !IsDigit(At(s, j))
    ensures DigitEnd(s, i) <= j
  {
  }

  lemma {:induction false} HeaderAsWritten(s: string, i: nat, w: Written, l: Layout, asked: Asked, args: seq<PrintfArg>)
    requires Writable(w) && PartsEnd(s, i, w, l)
    ensures i <= |s|
    ensures Header(s, i, asked, args) == PartOf(ReadWidth(w, asked, args), w.index, l.width)
  {
    hide Decimal, FlagsAndWidth, Number, ReadWidth, FlagsStand, WidthStands, PrecisionStands;
    FlagsAndWidthAsWritten(s, i, w, l, w.index, asked, args);
    if w.index.Some? {
      DecimalIsRead(s, i, w.index.value);
    } else {
      NoDollar(s, i, w, l);
      HeaderIsFlagsAndWidth(s, i, asked, args);
    }
  }

  lemma PrecisionNumber(s: string, i: nat, w: Written, l: Layout)
    requires Writable(w) && PartsEnd(s, i, w, l) && w.precision.Some? && w.precision.value.Digits?
    ensures l.width + 1 < |s| && IsDigit(s[l.width + 1])
    ensures ParsedInt(s, l.width + 1) == Ok(w.precision.value.n) && DigitEnd(s, l.width + 1) == l.precision
  {
    hide Decimal, Number, DigitEnd, IndexStands, FlagsStand, WidthStands, IsFlag;
    AfterPrecision(s, i, w, l);
    DecimalIsRead(s, l.width + 1, w.precision.value.n);
  }

  lemma {:induction false} PrecisionAsWritten(s: string, i: nat, w: Written, l: Layout, specs: Specs, asked: Asked, args: seq<PrintfArg>)
    requires Writable(w) && PartsEnd(s, i, w, l)
    ensures l.width <= |s|
    ensures Precision(s, Part(w.index, specs, l.width, asked), args) == PartOf(ReadPrecision(w, specs, asked, args), w.index, l.precision)
  {
    AfterPrecision(s, i, w, l);
    if w.precision.Some? && w.precision.value.Digits? {
      PrecisionNumber(s, i, w, l);
    }
    hide Decimal, Number, ParsedInt, GetArg, StarPrecision, DigitEnd, OccursAt, IndexStands, FlagsStand, WidthStands, IsFlag;
  }

  lemma LengthAsWritten(s: string, i: nat, w: Written, l: Layout)
    requires Writable(w) && StandsAt(s, i, w, l) && i > 0
    ensures 0 < l.precision <= |s| && LengthAt(s, l.precision) == (w.length, l.length)
  {
    hide Decimal, IsFlag;
    var p, text := l.precision, LengthText(w.length);
    assert w.conversion != 'h' && w.conversion != 'l';
    if w.length != NoLength {
      assert s[p] == s[p..p + |text|][0] == text[0];
    }
    if |text| == 2 {
      assert s[p + 1] == s[p..p + |text|][1] == text[1];
    }
  }

  /** What reading a directive should give: its parts in order, each with the arguments it asks for. */
  function ReadWritten(w: Written, end: nat, asked: Asked, args: seq<PrintfArg>): Result<Directive, Error> {
    match ReadWidth(w, asked, args)
    case Err(e) => Err(e)
    case Ok(wide) =>
      match ReadPrecision(w, wide.specs, wide.asked, args)
      case Err(e) => Err(e)
      case Ok(precise) =>
        match GetArg(precise.asked, args, if w.index.Some? then Manual(w.index.value - 1) else Auto)
        case Err(e) => Err(e)
        case Ok(got) =>
          var specs := Adjusted(precise.specs, got.arg).(conversion := Normalized(w.conversion, got.arg));
          Ok(Directive(Conversion(specs, w.length, wide.ids + precise.ids + [got.id]), end, got.asked))
  }

  lemma AskedGrows(w: Written, specs: Specs, asked: Asked, args: seq<PrintfArg>)
    ensures ReadWidth(w, asked, args).Ok? ==> ReadWidth(w, asked, args).value.asked.ids == asked.ids + ReadWidth(w, asked, args).value.ids
    ensures ReadPrecision(w, specs, asked, args).Ok? ==>
      ReadPrecision(w, specs, asked, args).value.asked.ids == asked.ids + ReadPrecision(w, specs, asked, args).value.ids
  {
    hide WithFlags, StarWidth, StarPrecision, Answer, NextAfter;
    assert asked.ids + [] == asked.ids;
  }

  lemma FinishAsWritten(s: string, w: Written, l: Layout, specs: Specs, asked: Asked, before: nat, args: seq<PrintfArg>)
    requires 0 < l.precision <= |s| && LengthAt(s, l.precision) == (w.length, l.length)
    requires l.length < |s| && s[l.length] == w.conversion && before <= |asked.ids|
    ensures Finish(s, Part(w.index, specs, l.precision, asked), before, args) ==
      match GetArg(asked, args, if w.index.Some? then Manual(w.index.value - 1) else Auto)
      case Err(e) => Err(e)
      case Ok(got) =>
        Ok(Directive(Conversion(Adjusted(specs, got.arg).(conversion := Normalized(w.conversion, got.arg)), w.length,
                                asked.ids[before..] + [got.id]), l.length + 1, got.asked))
  {
    hide GetArg, Adjusted, LengthAt;
  }

  /**
   A directive reads back as it was written: same index, flags, width, precision, length and
   conversion, the arguments a star asks for in their places, and the position behind its last
   character; an argument that cannot be a width or precision, or is missing, is the error.
   */
  lemma {:induction false} DirectiveReadAsWritten(s: string, i: nat, w: Written, l: Layout, asked: Asked, args: seq<PrintfArg>)
    requires Writable(w) && StandsAt(s, i, w, l) && 0 < i <= |s|
    ensures ReadDirective(s, i, asked, args) == ReadWritten(w, l.length + 1, asked, args)
  {
    hide Header, Precision, Finish, GetArg, Adjusted, ReadWidth, ReadPrecision, LengthAt, Decimal, IndexStands, FlagsStand, WidthStands, PrecisionStands;
    AfterParts(s, i, w, l);
    HeaderAsWritten(s, i, w, l, asked, args);
    LengthAsWritten(s, i, w, l);
    if ReadWidth(w, asked, args).Ok? {
      var wide := ReadWidth(w, asked, args).value;
      HeaderStays(s, i, asked, args);
      PrecisionAsWritten(s, i, w, l, wide.specs, wide.asked, args);
      AskedGrows(w, wide.specs, asked, args);
      AskedGrows(w, wide.specs, wide.asked, args);
      if ReadPrecision(w, wide.specs, wide.asked, args).Ok? {
        var precise := ReadPrecision(w, wide.specs, wide.asked, args).value;
        FinishAsWritten(s, w, l, precise.specs, precise.asked, |asked.ids|, args);
        assert precise.asked.ids[|asked.ids|..] == wide.ids + precise.ids;
      }
    }
  }

  // ---------------------------------------------------------------------------
  // Written directives cut off
  // ---------------------------------------------------------------------------

  /** The argument the directive is for, if it and those for a star width and precision are there and of use. */
  function ArgumentFor(w: Written, asked: Asked, args: seq<PrintfArg>): Option<PrintfArg> {
    match ReadWidth(w, asked, args)
    case Err(_) => None
    case Ok(wide) =>
      match ReadPrecision(w, wide.specs, wide.asked, args)
      case Err(_) => None
      case Ok(precise) =>
        match GetArg(precise.asked, args, if w.index.Some? then Manual(w.index.value - 1) else Auto)
        case Err(_) => None
        case Ok(got) => Some(got.arg)
  }

  lemma CutOffLength(s: string, w: Written, l: Layout)
    requires LengthStands(s, w, l) && l.length == |s|
    ensures s[l.precision..] in LENGTH_TEXTS <==> w.length != NoLength
    ensures w.length == NoLength ==> l.precision == |s|
  {
    var text := LengthText(w.length);
    assert s[l.precision..] == text;
    assert LENGTH_TEXTS[0] == "h" && LENGTH_TEXTS[1] == "l" && LENGTH_TEXTS[2] == "j" && LENGTH_TEXTS[3] == "z";
    assert LENGTH_TEXTS[4] == "t" && LENGTH_TEXTS[5] == "L" && LENGTH_TEXTS[6] == "hh" && LENGTH_TEXTS[7] == "ll";
  }

  lemma {:induction false} StopAsWritten(s: string, i: nat, w: Written, l: Layout, asked: Asked, args: seq<PrintfArg>)
    requires Writable(w) && PartsEnd(s, i, w, l) && 0 < i <= |s|
    ensures StopOf(s, i, asked, args) ==
      match ArgumentFor(w, asked, args)
      case None => None
      case Some(arg) => Some(Stop(l.precision, arg))
  {
    hide Header, Precision, GetArg, ReadWidth, ReadPrecision, PartsEnd;
    HeaderAsWritten(s, i, w, l, asked, args);
    if ReadWidth(w, asked, args).Ok? {
      var wide := ReadWidth(w, asked, args).value;
      HeaderStays(s, i, asked, args);
      PrecisionAsWritten(s, i, w, l, wide.specs, wide.asked, args);
    }
  }

  /**
   A directive written out but cut off before its conversion is an invalid format if and only if it
   ends in a length modifier and its arguments are there; without a length modifier it is formatted,
   its last character taken as the conversion.
   */
  lemma {:induction false} CutOffAsWritten(s: string, i: nat, w: Written, l: Layout, asked: Asked, args: seq<PrintfArg>)
    requires Writable(w) && StandsCutOff(s, i, w, l) && 0 < i <= |s|
    ensures var arg, r := ArgumentFor(w, asked, args), ReadDirective(s, i, asked, args);
      && (r == Err(InvalidFormat) <==> w.length != NoLength && arg.Some?)
      && (w.length == NoLength && arg.Some? ==> CutOffBy(s, r, arg.value))
  {
    hide ReadDirective, StopOf, ArgumentFor, PartsStand, LengthStands, CutOffBy, LENGTH_TEXTS;
    AfterParts(s, i, w, l);
    CutOffDirective(s, i, asked, args);
    StopAsWritten(s, i, w, l, asked, args);
    CutOffLength(s, w, l);
  }

  /** Text without percent signs is passed over. */
  lemma {:induction false} TextPassed(s: string, args: seq<PrintfArg>, it: nat, j: nat, asked: Asked)
    requires it <= j <= |s| && forall k :: it <= k < j ==> s[k] != '%'
    ensures EndsInLength(s, args, it, asked) == EndsInLength(s, args, j, asked)
    decreases j - it
  {
    if it < j {
      TextPassed(s, args, it + 1, j, asked);
    }
  }

  /** What a directive may start with: no percent sign. */
  lemma FirstChars(s: string, i: nat, w: Written, l: Layout)
    requires Writable(w) && PartsEnd(s, i, w, l)
    ensures w.index.Some? ==> IsDigit(At(s, i))
    ensures w.index.None? && w.flags != "" ==> IsFlag(At(s, i))
    ensures w.index.None? && w.flags == "" ==> l.flags == i
    ensures w.width.Digits? ==> IsDigit(At(s, l.flags))
    ensures w.width.Star? ==> At(s, l.flags) == '*'
    ensures w.width.Absent? ==> l.flags == l.width
    ensures w.precision.Some? ==> At(s, l.width) == '.'
  {
    hide Decimal, IsFlag;
    if w.index.Some? {
      assert s[i] == s[i..i + |Decimal(w.index.value)|][0];
    } else if w.flags != "" {
      assert s[i] == s[i..i + |w.flags|][0];
    }
    if w.width.Digits? {
      assert s[l.flags] == s[l.flags..l.flags + |Decimal(w.width.n)|][0];
    }
  }

  lemma NoPercent(s: string, i: nat, w: Written, l: Layout)
    requires Writable(w) && PartsEnd(s, i, w, l)
    ensures At(s, i) != '%'
  {
    hide Decimal, OccursAt;
    AfterPrecision(s, i, w, l);
    FirstChars(s, i, w, l);
  }

  /** Text and then a cut-off directive: the same, for the whole string. */
  lemma {:induction false} CutOffFormat(s: string, i: nat, w: Written, l: Layout, args: seq<PrintfArg>)
    requires Writable(w) && 0 < i <= |s| && StandsCutOff(s, i, w, l)
    requires s[i - 1] == '%' && forall k :: 0 <= k < i - 1 ==> s[k] != '%'
    ensures Format(s, args) == Err(InvalidFormat) <==> w.length != NoLength && ArgumentFor(w, NOTHING_ASKED, args).Some?
  {
    hide Format, ReadDirective, StopOf, ArgumentFor, PartsStand, LengthStands, LENGTH_TEXTS, Header, Precision;
    AfterParts(s, i, w, l);
    NoPercent(s, i, w, l);
    InvalidFormatIff(s, args);
    TextPassed(s, args, 0, i - 1, NOTHING_ASKED);
    CutOffAsWritten(s, i, w, l, NOTHING_ASKED, args);
    CutOffDirective(s, i, NOTHING_ASKED, args);
    StopAsWritten(s, i, w, l, NOTHING_ASKED, args);
  }
}
