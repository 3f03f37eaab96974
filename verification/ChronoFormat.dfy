/**
 Duration formatting: one scanner for time format strings, run first with a handler that only
 checks and later, over the range the check accepted, with a handler that formats. Alignment and
 width are parsed elsewhere; here only where that parsing stopped matters.
 */
module ChronoFormat {
  import opened Escapes
  import opened Wrappers

  datatype Spec =
    | AbbrWeekday | FullWeekday | Dec0Weekday | Dec1Weekday | AbbrMonth | FullMonth
    | Hour24 | Hour12 | Minute | Second
    | DateTime | LocDate | LocTime | UsDate | IsoDate
    | Time12 | Time24 | IsoTime | AmPm | DurationValue | DurationUnit | UtcOffset | TzName

  /** One call of the handler. */
  datatype Event = OnText(text: string) | OnSpec(spec: Spec, alternative: bool)

  datatype Error = InvalidFormat | NoDate | PrecisionNotAllowed

  // ---------------------------------------------------------------------------
  // The scanner
  // ---------------------------------------------------------------------------

  function Standard(spec: Spec): Option<Event> { Some(OnSpec(spec, false)) }

  function Plain(c: char): Option<Event> {
    match c
    case '%' => Some(OnText("%"))
    case 'n' => Some(OnText("\n"))
    case 't' => Some(OnText("\t"))
    case 'a' => Standard(AbbrWeekday)
    case 'A' => Standard(FullWeekday)
    case 'w' => Standard(Dec0Weekday)
    case 'u' => Standard(Dec1Weekday)
    case 'b' => Standard(AbbrMonth)
    case 'B' => Standard(FullMonth)
    case 'H' => Standard(Hour24)
    case 'I' => Standard(Hour12)
    case 'M' => Standard(Minute)
    case 'S' => Standard(Second)
    case 'c' => Standard(DateTime)
    case 'x' => Standard(LocDate)
    case 'X' => Standard(LocTime)
    case 'D' => Standard(UsDate)
    case 'F' => Standard(IsoDate)
    case 'r' => Standard(Time12)
    case 'R' => Standard(Time24)
    case 'T' => Standard(IsoTime)
    case 'p' => Standard(AmPm)
    case 'Q' => Standard(DurationValue)
    case 'q' => Standard(DurationUnit)
    case 'z' => Standard(UtcOffset)
    case 'Z' => Standard(TzName)
    case _ => None
  }

  function Alternative(prefix: char, c: char): Option<Event> {
    if prefix == 'E' then
      match c
      case 'c' => Some(OnSpec(DateTime, true))
      case 'x' => Some(OnSpec(LocDate, true))
      case 'X' => Some(OnSpec(LocTime, true))
      case _ => None
    else
      match c
      case 'w' => Some(OnSpec(Dec0Weekday, true))
      case 'u' => Some(OnSpec(Dec1Weekday, true))
      case 'H' => Some(OnSpec(Hour24, true))
      case 'I' => Some(OnSpec(Hour12, true))
      case 'M' => Some(OnSpec(Minute, true))
      case 'S' => Some(OnSpec(Second, true))
      case _ => None
  }

  /** The specifiers a handler refuses; none refuses text. */
  type Refusal = Event -> bool

  predicate Refused(refuses: Refusal, e: Event) {
    e.OnSpec? && refuses(e)
  }

  /** What the checking handler refuses, since a duration has no date. */
  predicate NeedsDate(e: Event) {
    e.OnSpec? && e.spec !in {Hour24, Hour12, Minute, Second, Time12, Time24, IsoTime, AmPm, DurationValue, DurationUnit}
  }

  /** What the formatting handler refuses. */
  predicate Nothing(e: Event) { false }

  datatype Read = Read(event: Event, next: nat)

  /** The specifier behind a percent sign, in s up to end. */
  function Specifier(s: string, p: nat, end: nat): (r: Result<Read, Error>)
    requires p <= end <= |s|
    ensures r.Ok? ==> p < r.value.next <= end
  {
    if p == end then Err(InvalidFormat)
    else if s[p] == 'E' || s[p] == 'O' then
      if p + 1 == end then Err(InvalidFormat)
      else
        match Alternative(s[p], s[p + 1])
        case None => Err(InvalidFormat)
        case Some(e) => Ok(Read(e, p + 2))
    else
      match Plain(s[p])
      case None => Err(InvalidFormat)
      case Some(e) => Ok(Read(e, p + 1))
  }

  datatype Parsed = Parsed(events: seq<Event>, end: nat)

  function WithText(events: seq<Event>, s: string, begin: nat, ptr: nat): seq<Event>
    requires begin <= ptr <= |s|
  {
    if begin != ptr then events + [OnText(s[begin..ptr])] else events
  }

  /** The scan standing at ptr, with the text from begin not yet reported. */
  function Parse(s: string, end: nat, begin: nat, ptr: nat, refuses: Refusal, events: seq<Event>): (r: Result<Parsed, Error>)
    requires begin <= ptr <= end <= |s|
    ensures r.Ok? ==> ptr <= r.value.end <= end
    decreases end - ptr
  {
    if ptr == end || s[ptr] == '}' then Ok(Parsed(WithText(events, s, begin, ptr), ptr))
    else if s[ptr] != '%' then Parse(s, end, begin, ptr + 1, refuses, events)
    else
      match Specifier(s, ptr + 1, end)
      case Err(e) => Err(e)
      case Ok(read) =>
        if Refused(refuses, read.event) then Err(NoDate)
        else Parse(s, end, read.next, read.next, refuses, WithText(events, s, begin, ptr) + [read.event])
  }

  /** A handler: some specifiers are refused, everything else is recorded. */
  class Handler {
    const refuses: Refusal
    var events: seq<Event>

    constructor (refuses: Refusal)
      ensures this.refuses == refuses && events == []
    {
      this.refuses := refuses;
      events := [];
    }

    method On(e: Event) returns (error: Option<Error>)
      modifies this
      ensures error == if Refused(refuses, e) then Some(NoDate) else None
      ensures events == if error.None? then old(events) + [e] else old(events)
    {
      if Refused(refuses, e) {
        return Some(NoDate);
      }
      events := events + [e];
      return None;
    }

    method OnTextRange(s: string, begin: nat, ptr: nat)
      requires begin <= ptr <= |s|
      modifies this
      ensures events == WithText(old(events), s, begin, ptr)
    {
      if begin != ptr {
        var error := On(OnText(s[begin..ptr]));
      }
    }
  }

  method ParseChronoFormat(s: string, first: nat, end: nat, handler: Handler) returns (r: Result<nat, Error>)
    requires first <= end <= |s|
    modifies handler
    ensures match Parse(s, end, first, first, handler.refuses, old(handler.events))
      case Ok(p) => r == Ok(p.end) && handler.events == p.events
      case Err(e) => r == Err(e)
  {
    hide Specifier, Refused, WithText;
    var begin, ptr := first, first;
    while ptr != end
      invariant first <= begin <= ptr <= end
      invariant Parse(s, end, begin, ptr, handler.refuses, handler.events)
             == Parse(s, end, first, first, handler.refuses, old(handler.events))
      decreases end - ptr
    {
      if s[ptr] == '}' {
        break;
      }
      if s[ptr] != '%' {
        ptr := ptr + 1;
        continue;
      }
      handler.OnTextRange(s, begin, ptr);
      match Specifier(s, ptr + 1, end) {
        case Err(e) => return Err(e);
        case Ok(read) =>
          var refused := handler.On(read.event);
          if refused.Some? {
            return Err(refused.value);
          }
          begin, ptr := read.next, read.next;
      }
    }
    handler.OnTextRange(s, begin, ptr);
    return Ok(ptr);
  }

  // ---------------------------------------------------------------------------
  // The formatter
  // ---------------------------------------------------------------------------

  /** Where parsing of alignment and width, and of a precision, stopped. */
  datatype Stops = Stops(align: nat, width: nat, precision: nat)

  datatype Range = Range(begin: nat, end: nat)

  function DoParse(s: string, begin: nat, stops: Stops, floating: bool): Result<Range, Error>
    requires begin <= stops.align <= stops.width <= stops.precision <= |s|
  {
    if begin == |s| || s[begin] == '}' then Ok(Range(begin, begin))
    else if stops.align == |s| then Ok(Range(stops.align, stops.align))
    else if stops.width == |s| then Ok(Range(stops.width, stops.width))
    else if s[stops.width] == '.' && !floating then Err(PrecisionNotAllowed)
    else
      var b := if s[stops.width] == '.' then stops.precision else stops.width;
      match Parse(s, |s|, b, b, NeedsDate, [])
      case Err(e) => Err(e)
      case Ok(p) => Ok(Range(b, p.end))
  }

  /** How a parsed duration is written: by value and unit, or by the events of its format. */
  datatype Plan = ValueAndUnit | Events(events: seq<Event>)

  class DurationFormatter {
    var formatStr: string

    constructor ()
      ensures formatStr == ""
    {
      formatStr := "";
    }

    method Parse(s: string, first: nat, stops: Stops, floating: bool) returns (r: Result<nat, Error>)
      requires first <= stops.align <= stops.width <= stops.precision <= |s|
      modifies this
      ensures match DoParse(s, first, stops, floating)
        case Err(e) => r == Err(e)
        case Ok(range) => r == Ok(range.end) && range.begin <= range.end <= |s| && formatStr == s[range.begin..range.end]
    {
      var begin, end := first, first;
      if begin != |s| && s[begin] != '}' {
        begin, end := stops.align, stops.align;
        if begin != |s| {
          begin, end := stops.width, stops.width;
          if begin != |s| {
            if s[begin] == '.' {
              if !floating {
                return Err(PrecisionNotAllowed);
              }
              begin := stops.precision;
            }
            var checker := new Handler(NeedsDate);
            var checked := ParseChronoFormat(s, begin, |s|, checker);
            match checked {
              case Err(e) => return Err(e);
              case Ok(p) => end := p;
            }
          }
        }
      }
      formatStr := s[begin..end];
      return Ok(end);
    }

    method Format() returns (r: Result<Plan, Error>)
      ensures r == PlanOf(formatStr)
    {
      if formatStr == "" || formatStr[0] == '}' {
        return Ok(ValueAndUnit);
      }
      var f := new Handler(Nothing);
      var end := ParseChronoFormat(formatStr, 0, |formatStr|, f);
      match end {
        case Err(e) => return Err(e);
        case Ok(_) => return Ok(Events(f.events));
      }
    }
  }

  function PlanOf(formatStr: string): Result<Plan, Error> {
    if formatStr == "" || formatStr[0] == '}' then Ok(ValueAndUnit)
    else
      match Parse(formatStr, |formatStr|, 0, 0, Nothing, [])
      case Err(e) => Err(e)
      case Ok(p) => Ok(Events(p.events))
  }

  // ---------------------------------------------------------------------------
  // What was accepted is formatted
  // ---------------------------------------------------------------------------

  /** Reading a specifier only depends on the characters up to where it ends. */
  lemma SpecifierInside(s: string, p: nat, end: nat, t: string, k: nat)
    requires k <= p <= end <= |s| && Specifier(s, p, end).Ok?
    requires k + |t| <= |s| && Specifier(s, p, end).value.next <= k + |t|
    requires forall i :: 0 <= i < |t| ==> t[i] == s[k + i]
    ensures Specifier(t, p - k, |t|) == Ok(Read(Specifier(s, p, end).value.event, Specifier(s, p, end).value.next - k))
  {
  }

  lemma SameText(events: seq<Event>, s: string, begin: nat, ptr: nat, t: string, k: nat)
    requires k <= begin <= ptr <= k + |t| <= |s|
    requires forall i :: 0 <= i < |t| ==> t[i] == s[k + i]
    ensures WithText(events, t, begin - k, ptr - k) == WithText(events, s, begin, ptr)
  {
    assert t[begin - k..ptr - k] == s[begin..ptr];
  }

  /**
   A range the checker accepted, cut out of the format string, is consumed completely by the
   formatting pass, with the same events in the same order and no error.
   */
  lemma {:induction false} AcceptedRangeFormats(s: string, begin: nat, ptr: nat, events: seq<Event>, t: string, k: nat)
    requires k <= begin <= ptr <= |s| && Parse(s, |s|, begin, ptr, NeedsDate, events).Ok?
    requires k <= Parse(s, |s|, begin, ptr, NeedsDate, events).value.end && t == s[k..Parse(s, |s|, begin, ptr, NeedsDate, events).value.end]
    ensures Parse(t, |t|, begin - k, ptr - k, Nothing, events)
         == Ok(Parsed(Parse(s, |s|, begin, ptr, NeedsDate, events).value.events, |t|))
    decreases |s| - ptr
  {
    hide Specifier, WithText;
    SameText(events, s, begin, ptr, t, k);
    if ptr < |s| && s[ptr] != '}' {
      if s[ptr] != '%' {
        AcceptedRangeFormats(s, begin, ptr + 1, events, t, k);
      } else {
        var read := Specifier(s, ptr + 1, |s|).value;
        SpecifierInside(s, ptr + 1, |s|, t, k);
        AcceptedRangeFormats(s, read.next, read.next, WithText(events, s, begin, ptr) + [read.event], t, k);
      }
    }
  }

  /** So whatever Parse accepts, Format carries out: the very events the check saw, or value and unit if there are none. */
  lemma ParsedFormats(s: string, begin: nat, stops: Stops, floating: bool)
    requires begin <= stops.align <= stops.width <= stops.precision <= |s| && DoParse(s, begin, stops, floating).Ok?
    ensures var range := DoParse(s, begin, stops, floating).value;
      && range.begin <= range.end <= |s|
      && PlanOf(s[range.begin..range.end]) ==
           if range.begin == range.end then Ok(ValueAndUnit)
           else Ok(Events(Parse(s, |s|, range.begin, range.begin, NeedsDate, []).value.events))
  {
    hide Parse;
    var range := DoParse(s, begin, stops, floating).value;
    if range.begin != range.end {
      ParseStays(s, range.begin);
      NonEmptyRange(s, range.begin);
      AcceptedRangeFormats(s, range.begin, range.begin, [], s[range.begin..range.end], range.begin);
    }
  }

  lemma ParseStays(s: string, begin: nat)
    requires begin <= |s| && Parse(s, |s|, begin, begin, NeedsDate, []).Ok?
    ensures begin <= Parse(s, |s|, begin, begin, NeedsDate, []).value.end <= |s|
  {
  }

  lemma NonEmptyRange(s: string, begin: nat)
    requires begin <= |s| && Parse(s, |s|, begin, begin, NeedsDate, []).Ok?
    requires Parse(s, |s|, begin, begin, NeedsDate, []).value.end != begin
    ensures begin < |s| && s[begin] != '}'
  {
  }

  predicate NoDates(events: seq<Event>) {
    forall i :: 0 <= i < |events| ==> !Refused(NeedsDate, events[i])
  }

  /** The check accepts exactly the well-formed strings whose events need no date. */
  lemma {:induction false} CheckIsExact(s: string, end: nat, begin: nat, ptr: nat, events: seq<Event>)
    requires begin <= ptr <= end <= |s| && NoDates(events)
    ensures Parse(s, end, begin, ptr, NeedsDate, events).Ok? <==>
      (Parse(s, end, begin, ptr, Nothing, events).Ok? && NoDates(Parse(s, end, begin, ptr, Nothing, events).value.events))
    ensures Parse(s, end, begin, ptr, NeedsDate, events).Ok? ==>
      Parse(s, end, begin, ptr, NeedsDate, events) == Parse(s, end, begin, ptr, Nothing, events)
    decreases end - ptr
  {
    hide Specifier, NeedsDate;
    TextNeedsNoDate(s[begin..ptr]);
    if ptr < end && s[ptr] != '}' {
      if s[ptr] != '%' {
        CheckIsExact(s, end, begin, ptr + 1, events);
      } else if Specifier(s, ptr + 1, end).Ok? {
        var read := Specifier(s, ptr + 1, end).value;
        var next := WithText(events, s, begin, ptr) + [read.event];
        if Refused(NeedsDate, read.event) {
          assert next[|next| - 1] == read.event;
          EventsStay(s, end, read.next, read.next, Nothing, next);
        } else {
          CheckIsExact(s, end, read.next, read.next, next);
        }
      }
    }
  }

  lemma TextNeedsNoDate(text: string)
    ensures !Refused(NeedsDate, OnText(text))
  {
  }

  /** Events already reported stay. */
  lemma {:induction false} EventsStay(s: string, end: nat, begin: nat, ptr: nat, refuses: Refusal, events: seq<Event>)
    requires begin <= ptr <= end <= |s|
    ensures Parse(s, end, begin, ptr, refuses, events).Ok? ==>
      events <= Parse(s, end, begin, ptr, refuses, events).value.events
    decreases end - ptr
  {
    hide Specifier, NeedsDate;
    if ptr < end && s[ptr] != '}' {
      if s[ptr] != '%' {
        EventsStay(s, end, begin, ptr + 1, refuses, events);
      } else if Specifier(s, ptr + 1, end).Ok? {
        var read := Specifier(s, ptr + 1, end).value;
        if !Refused(refuses, read.event) {
          EventsStay(s, end, read.next, read.next, refuses, WithText(events, s, begin, ptr) + [read.event]);
        }
      }
    }
  }

  // ---------------------------------------------------------------------------
  // Doubled percent signs
  // ---------------------------------------------------------------------------

  predicate OnlyText(events: seq<Event>) {
    forall i :: 0 <= i < |events| ==> events[i].OnText?
  }

  /** The text written by text events. */
  function Written(events: seq<Event>, k: nat): string
    requires k <= |events|
  {
    if k == 0 then "" else Written(events, k - 1) + (if events[k - 1].OnText? then events[k - 1].text else "")
  }

  lemma {:induction false} WrittenPrefix(events: seq<Event>, more: seq<Event>, k: nat)
    requires k <= |events|
    ensures Written(events + more, k) == Written(events, k)
  {
    if k > 0 {
      WrittenPrefix(events, more, k - 1);
    }
  }

  lemma WrittenSnoc(events: seq<Event>, text: string)
    ensures Written(events + [OnText(text)], |events| + 1) == Written(events, |events|) + text
  {
    WrittenPrefix(events, [OnText(text)], |events|);
  }

  lemma WrittenText(events: seq<Event>, s: string, begin: nat, ptr: nat)
    requires begin <= ptr <= |s|
    ensures var e := WithText(events, s, begin, ptr); Written(e, |e|) == Written(events, |events|) + s[begin..ptr]
    ensures OnlyText(events) ==> OnlyText(WithText(events, s, begin, ptr))
  {
    hide Written;
    if begin != ptr {
      WrittenSnoc(events, s[begin..ptr]);
    } else {
      assert Written(events, |events|) + s[begin..ptr] == Written(events, |events|);
    }
  }

  ghost predicate Writes(r: Result<Parsed, Error>, text: string, end: nat) {
    && r.Ok? && OnlyText(r.value.events) && r.value.end == end
    && Written(r.value.events, |r.value.events|) == text
  }

  lemma {:induction false} ParseDoubled(text: string, j: nat, refuses: Refusal, begin: nat, events: seq<Event>)
    requires '}' !in text && OnlyText(events)
    requires j <= |text| && begin <= |Doubled(text, PERCENT, j)| <= |Doubled(text, PERCENT, |text|)|
    ensures var s, ptr := Doubled(text, PERCENT, |text|), |Doubled(text, PERCENT, j)|;
      Writes(Parse(s, |s|, begin, ptr, refuses, events), Written(events, |events|) + s[begin..ptr] + text[j..], |s|)
    decreases |text| - j
  {
    hide Doubled, Written, WithText, Plain, NeedsDate;
    var s, ptr := Doubled(text, PERCENT, |text|), |Doubled(text, PERCENT, j)|;
    var before := Written(events, |events|);
    WrittenText(events, s, begin, ptr);
    if j == |text| {
      assert before + s[begin..ptr] + text[j..] == before + s[begin..ptr];
    } else {
      DoubledAt(text, PERCENT, j);
      DoubledGrows(text, PERCENT, j + 1);
      assert text[j..] == [text[j]] + text[j + 1..];
      if text[j] != '%' {
        ParseDoubled(text, j + 1, refuses, begin, events);
        assert s[begin..ptr + 1] == s[begin..ptr] + [text[j]];
        Regroup(before, s[begin..ptr], [text[j]], text[j + 1..]);
      } else {
        PercentRead(s, ptr + 1);
        var e1 := WithText(events, s, begin, ptr);
        WrittenSnoc(e1, "%");
        ParseDoubled(text, j + 1, refuses, ptr + 2, e1 + [OnText("%")]);
        assert s[ptr + 2..ptr + 2] == "";
        assert before + s[begin..ptr] + "%" + "" + text[j + 1..] == before + s[begin..ptr] + ("%" + text[j + 1..]);
      }
    }
  }

  lemma PercentRead(s: string, p: nat)
    requires p < |s| && s[p] == '%'
    ensures Specifier(s, p, |s|) == Ok(Read(OnText("%"), p + 1)) && !Refused(NeedsDate, OnText("%"))
  {
  }

  /** A text free of closing braces, with each percent sign doubled, is accepted, consumed and written back. */
  lemma DoubledWritesText(text: string, refuses: Refusal)
    requires '}' !in text
    ensures var s := Doubled(text, PERCENT, |text|); Writes(Parse(s, |s|, 0, 0, refuses, []), text, |s|)
  {
    hide Parse, Writes;
    assert Doubled(text, PERCENT, 0) == "";
    assert Written([], 0) == "";
    ParseDoubled(text, 0, refuses, 0, []);
    assert "" + Doubled(text, PERCENT, |text|)[0..0] + text[0..] == text;
  }
}
