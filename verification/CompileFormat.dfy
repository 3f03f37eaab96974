/**
 Format strings compiled to a tree of texts and fields by recursion over the position, and a
 plain left-to-right interpreter to compare it with. How one argument is written, and how the
 specification behind a colon is parsed, belong to the argument's type and are parameters.
 */
module CompileFormat {
  import opened Escapes
  import opened Wrappers

  /** The characters a specification takes, and the next automatic argument number after it. */
  datatype SpecParse = SpecParse(length: nat, next: nat)

  /** The argument list: how many, how each is written plainly or with a specification, how specifications are parsed. */
  datatype Arguments = Arguments(
    count: nat,
    show: nat -> string,
    showWith: (nat, string) -> string,
    parse: (nat, string, nat) -> Option<SpecParse>)

  datatype Tree =
    | Text(data: string)
    | CodeUnit(value: char)
    | Field(n: nat)
    | SpecField(n: nat, spec: string)
    | Concat(lhs: Tree, rhs: Tree)

  /** Failed: the compiler rejects the program. Unknown: the string is left to the run-time formatter. */
  datatype Outcome = Compiled(tree: Tree) | Unknown | Failed

  datatype Specs = Specs(spec: string, end: nat, next: nat)

  /**
   Parses the specification of argument id at pos; the end counts one character more, the closing
   brace. A parser stays inside the string and never takes argument numbers back.
   */
  function ParseSpecs(s: string, pos: nat, id: nat, args: Arguments): (r: Option<Specs>)
    requires pos <= |s|
    ensures r.Some? ==> pos < r.value.end <= |s| + 1 && r.value.next > id
  {
    match args.parse(id, s[pos..], id + 1)
    case None => None
    case Some(p) =>
      if p.length <= |s| - pos && p.next > id then Some(Specs(s[pos..pos + p.length], pos + p.length + 1, p.next))
      else None
  }

  // ---------------------------------------------------------------------------
  // Compiling
  // ---------------------------------------------------------------------------

  predicate IsBrace(c: char) { c == '{' || c == '}' }

  function TextEnd(s: string, pos: nat): (end: nat)
    requires pos <= |s|
    ensures pos <= end <= |s|
    ensures forall k :: pos <= k < end ==> !IsBrace(s[k])
    ensures end < |s| ==> IsBrace(s[end])
    decreases |s| - pos
  {
    if pos < |s| && !IsBrace(s[pos]) then TextEnd(s, pos + 1) else pos
  }

  /** The loop that finds the end of literal text. */
  method ParseText(s: string, start: nat) returns (pos: nat)
    requires start <= |s|
    ensures pos == TextEnd(s, start)
  {
    pos := start;
    while pos != |s|
      invariant start <= pos <= |s| && TextEnd(s, pos) == TextEnd(s, start)
      decreases |s| - pos
    {
      if s[pos] == '{' || s[pos] == '}' {
        break;
      }
      pos := pos + 1;
    }
  }

  function ParseTail(head: Tree, s: string, pos: nat, id: nat, args: Arguments): Outcome
    decreases |s| + 1 - pos, 1
  {
    if pos > |s| then Failed
    else if pos == |s| then Compiled(head)
    else
      match CompileAt(s, pos, id, args)
      case Compiled(tail) => Compiled(Concat(head, tail))
      case Unknown => Unknown
      case Failed => Failed
  }

  /** Compiles what follows position pos, the next field being argument id. */
  function CompileAt(s: string, pos: nat, id: nat, args: Arguments): Outcome
    requires pos < |s|
    decreases |s| + 1 - pos, 0
  {
    if s[pos] == '{' then
      if pos + 1 == |s| then Failed
      else if s[pos + 1] == '{' then ParseTail(Text(s[pos..pos + 1]), s, pos + 2, id, args)
      else if s[pos + 1] == '}' then
        if id >= args.count then Failed else ParseTail(Field(id), s, pos + 2, id + 1, args)
      else if s[pos + 1] == ':' then
        if id >= args.count then Failed
        else
          match ParseSpecs(s, pos + 2, id, args)
          case None => Failed
          case Some(p) => ParseTail(SpecField(id, p.spec), s, p.end, p.next, args)
      else Unknown
    else if s[pos] == '}' then
      if pos + 1 == |s| then Failed else ParseTail(Text(s[pos..pos + 1]), s, pos + 2, id, args)
    else
      var end := TextEnd(s, pos + 1);
      ParseTail(if end - pos > 1 then Text(s[pos..end]) else CodeUnit(s[pos]), s, end, id, args)
  }

  function Compile(s: string, args: Arguments): Outcome {
    if s == "" then Compiled(Text("")) else CompileAt(s, 0, 0, args)
  }

  /** What the compiled tree writes. */
  function Format(t: Tree, args: Arguments): string {
    match t
    case Text(data) => data
    case CodeUnit(value) => [value]
    case Field(n) => args.show(n)
    case SpecField(n, spec) => args.showWith(n, spec)
    case Concat(lhs, rhs) => Format(lhs, args) + Format(rhs, args)
  }

  // ---------------------------------------------------------------------------
  // Interpreting
  // ---------------------------------------------------------------------------

  /** Fallback: a field the compiler leaves to run time. Malformed: no format string. */
  datatype Reading = Printed(text: string) | Fallback | Malformed

  function Then(text: string, rest: Reading): Reading {
    if rest.Printed? then Printed(text + rest.text) else rest
  }

  /** Reads one character, doubled brace or field at a time. */
  function Interpret(s: string, pos: nat, id: nat, args: Arguments): Reading
    requires pos <= |s|
    decreases |s| - pos
  {
    if pos == |s| then Printed("")
    else if !IsBrace(s[pos]) then Then([s[pos]], Interpret(s, pos + 1, id, args))
    else if pos + 1 == |s| then Malformed
    else if s[pos + 1] == s[pos] then Then([s[pos]], Interpret(s, pos + 2, id, args))
    else if s[pos] == '}' then Malformed
    else if s[pos + 1] == '}' then
      if id >= args.count then Malformed else Then(args.show(id), Interpret(s, pos + 2, id + 1, args))
    else if s[pos + 1] == ':' then
      if id >= args.count then Malformed
      else
        match ParseSpecs(s, pos + 2, id, args)
        case None => Malformed
        case Some(p) =>
          if p.end > |s| || s[p.end - 1] != '}' then Malformed
          else Then(args.showWith(id, p.spec), Interpret(s, p.end, p.next, args))
    else Fallback
  }

  /**
   Compiling from pos reaches a closing brace that is not doubled, or a specification that does
   not end at one: there the compiler passes over a character without looking at it.
   */
  predicate Swallows(s: string, pos: nat, id: nat, args: Arguments)
    decreases |s| + 1 - pos
  {
    if pos >= |s| then false
    else if s[pos] == '{' then
      if pos + 1 == |s| then false
      else if s[pos + 1] == '{' then Swallows(s, pos + 2, id, args)
      else if s[pos + 1] == '}' then id < args.count && Swallows(s, pos + 2, id + 1, args)
      else if s[pos + 1] == ':' && id < args.count then
        match ParseSpecs(s, pos + 2, id, args)
        case None => false
        case Some(p) => p.end <= |s| && (s[p.end - 1] != '}' || Swallows(s, p.end, p.next, args))
      else false
    else if s[pos] == '}' then
      pos + 1 < |s| && (s[pos + 1] != '}' || Swallows(s, pos + 2, id, args))
    else Swallows(s, TextEnd(s, pos + 1), id, args)
  }

  // ---------------------------------------------------------------------------
  // The compiled form means what the string means
  // ---------------------------------------------------------------------------

  /** What interpreting gives for a string the compiler treats in this way. */
  function Meaning(c: Outcome, args: Arguments): Reading {
    match c
    case Compiled(t) => Printed(Format(t, args))
    case Unknown => Fallback
    case Failed => Malformed
  }

  /** Either nothing is swallowed and both agree, or something is and the string is malformed. */
  predicate Faithful(swallows: bool, c: Outcome, r: Reading, args: Arguments) {
    r == if swallows then Malformed else Meaning(c, args)
  }

  lemma {:induction false} InterpretText(s: string, pos: nat, end: nat, id: nat, args: Arguments)
    requires pos <= end <= |s| && forall k :: pos <= k < end ==> !IsBrace(s[k])
    ensures Interpret(s, pos, id, args) == Then(s[pos..end], Interpret(s, end, id, args))
    decreases end - pos
  {
    if pos < end {
      InterpretText(s, pos + 1, end, id, args);
      assert s[pos..end] == [s[pos]] + s[pos + 1..end];
    } else {
      assert s[pos..end] == "";
    }
  }

  /** The tail keeps what the head adds. */
  lemma TailFaithful(head: Tree, s: string, pos: nat, id: nat, args: Arguments)
    requires pos <= |s|
    requires pos < |s| ==> Faithful(Swallows(s, pos, id, args), CompileAt(s, pos, id, args), Interpret(s, pos, id, args), args)
    ensures Faithful(Swallows(s, pos, id, args), ParseTail(head, s, pos, id, args),
                     Then(Format(head, args), Interpret(s, pos, id, args)), args)
  {
  }

  lemma {:induction false} CompileAtFaithful(s: string, pos: nat, id: nat, args: Arguments)
    requires pos < |s|
    ensures Faithful(Swallows(s, pos, id, args), CompileAt(s, pos, id, args), Interpret(s, pos, id, args), args)
    decreases |s| - pos
  {
    hide ParseTail, Faithful;
    if s[pos] == '{' {
      OpenFaithful(s, pos, id, args);
    } else if s[pos] == '}' {
      CloseFaithful(s, pos, id, args);
    } else {
      TextFaithful(s, pos, id, args);
    }
  }

  /** The induction step: what follows is faithful, so head and tail are. */
  lemma NextFaithful(head: Tree, s: string, before: nat, pos: nat, id: nat, args: Arguments)
    requires before < pos <= |s|
    ensures Faithful(Swallows(s, pos, id, args), ParseTail(head, s, pos, id, args),
                     Then(Format(head, args), Interpret(s, pos, id, args)), args)
    decreases |s| - before, 0
  {
    hide *;
    if pos < |s| {
      CompileAtFaithful(s, pos, id, args);
    }
    TailFaithful(head, s, pos, id, args);
  }

  lemma {:induction false} OpenFaithful(s: string, pos: nat, id: nat, args: Arguments)
    requires pos < |s| && s[pos] == '{'
    ensures Faithful(Swallows(s, pos, id, args), CompileAt(s, pos, id, args), Interpret(s, pos, id, args), args)
    decreases |s| - pos, 2
  {
    hide ParseTail, ParseSpecs;
    if pos + 1 < |s| {
      if s[pos + 1] == '{' {
        assert s[pos..pos + 1] == [s[pos]];
        NextFaithful(Text(s[pos..pos + 1]), s, pos, pos + 2, id, args);
      } else if s[pos + 1] == '}' {
        NextFaithful(Field(id), s, pos, pos + 2, id + 1, args);
      } else if s[pos + 1] == ':' && id < args.count {
        SpecFaithful(s, pos, id, args);
      }
    }
  }

  lemma {:induction false} SpecFaithful(s: string, pos: nat, id: nat, args: Arguments)
    requires pos + 1 < |s| && s[pos] == '{' && s[pos + 1] == ':' && id < args.count
    ensures Faithful(Swallows(s, pos, id, args), CompileAt(s, pos, id, args), Interpret(s, pos, id, args), args)
    decreases |s| - pos, 1
  {
    hide ParseTail;
    match ParseSpecs(s, pos + 2, id, args) {
      case None =>
      case Some(p) =>
        if p.end <= |s| {
          NextFaithful(SpecField(id, p.spec), s, pos, p.end, p.next, args);
        } else {
          PastEndFails(SpecField(id, p.spec), s, p.end, p.next, args);
        }
    }
  }

  lemma PastEndFails(head: Tree, s: string, pos: nat, id: nat, args: Arguments)
    requires pos > |s|
    ensures ParseTail(head, s, pos, id, args) == Failed
  {
  }

  lemma {:induction false} CloseFaithful(s: string, pos: nat, id: nat, args: Arguments)
    requires pos < |s| && s[pos] == '}'
    ensures Faithful(Swallows(s, pos, id, args), CompileAt(s, pos, id, args), Interpret(s, pos, id, args), args)
    decreases |s| - pos, 2
  {
    hide ParseTail, ParseSpecs;
    if pos + 1 < |s| && s[pos + 1] == '}' {
      assert s[pos..pos + 1] == [s[pos]];
      NextFaithful(Text(s[pos..pos + 1]), s, pos, pos + 2, id, args);
    }
  }

  lemma {:induction false} TextFaithful(s: string, pos: nat, id: nat, args: Arguments)
    requires pos < |s| && !IsBrace(s[pos])
    ensures Faithful(Swallows(s, pos, id, args), CompileAt(s, pos, id, args), Interpret(s, pos, id, args), args)
    decreases |s| - pos, 2
  {
    hide ParseTail, ParseSpecs;
    var end := TextEnd(s, pos + 1);
    var head := if end - pos > 1 then Text(s[pos..end]) else CodeUnit(s[pos]);
    assert Format(head, args) == s[pos..end];
    InterpretText(s, pos, end, id, args);
    NextFaithful(head, s, pos, end, id, args);
  }

  /**
   What the program does agrees with what the string means: the compiled form writes what
   interpreting gives, a rejected string is none. A string left to run time is read there as a whole.
   */
  predicate Agrees(c: Outcome, r: Reading, args: Arguments) {
    match c
    case Compiled(t) => r == Printed(Format(t, args))
    case Failed => r == Malformed
    case Unknown => !r.Printed?
  }

  /**
   They agree unless a string compiles in which a closing brace outside a field is not doubled or a
   field does not end at one. What interpreting gives is settled in every case: such a string is
   malformed, any other has the very text, fallback or rejection of its compilation.
   */
  lemma CompiledMeansInterpreted(s: string, args: Arguments)
    ensures Agrees(Compile(s, args), Interpret(s, 0, 0, args), args) <==> !(Compile(s, args).Compiled? && Swallows(s, 0, 0, args))
    ensures Interpret(s, 0, 0, args) == if Swallows(s, 0, 0, args) then Malformed else Meaning(Compile(s, args), args)
  {
    if s != "" {
      hide CompileAt, Interpret, Swallows;
      CompileAtFaithful(s, 0, 0, args);
    }
  }

  /** The condition is needed: the compiler accepts a lone closing brace and drops the character behind it. */
  lemma LoneCloseSwallows(args: Arguments)
    ensures Compile("}xy", args).Compiled? && Format(Compile("}xy", args).tree, args) == "}y"
    ensures Interpret("}xy", 0, 0, args) == Malformed
  {
  }

  // ---------------------------------------------------------------------------
  // Fields in order
  // ---------------------------------------------------------------------------

  function Fields(t: Tree): seq<nat> {
    match t
    case Field(n) => [n]
    case SpecField(n, _) => [n]
    case Concat(lhs, rhs) => Fields(lhs) + Fields(rhs)
    case _ => []
  }

  /** No specification asks for arguments of its own. */
  ghost predicate NoDynamicSpecs(args: Arguments) {
    forall id: nat, spec: string :: TakesNoArgument(id, spec, args)
  }

  predicate TakesNoArgument(id: nat, spec: string, args: Arguments) {
    var p := args.parse(id, spec, id + 1);
    p.Some? ==> p.value.next == id + 1
  }

  ghost predicate InOrder(fields: seq<nat>, id: nat, args: Arguments) {
    && (forall i :: 0 <= i < |fields| ==> id <= fields[i] < args.count)
    && (forall i, j :: 0 <= i < j < |fields| ==> fields[i] < fields[j])
    && (NoDynamicSpecs(args) ==> forall i :: 0 <= i < |fields| ==> fields[i] == id + i)
  }

  /** The head takes no argument, or argument id, leaving `next` as the next one. */
  ghost predicate HeadTakes(head: Tree, id: nat, next: nat, args: Arguments) {
    if id == next then Fields(head) == []
    else Fields(head) == [id] && id < next && id < args.count && (NoDynamicSpecs(args) ==> next == id + 1)
  }

  lemma TailInOrder(head: Tree, s: string, pos: nat, id: nat, next: nat, args: Arguments)
    requires pos <= |s| && ParseTail(head, s, pos, next, args).Compiled?
    requires pos < |s| && CompileAt(s, pos, next, args).Compiled? ==> InOrder(Fields(CompileAt(s, pos, next, args).tree), next, args)
    requires HeadTakes(head, id, next, args)
    ensures InOrder(Fields(ParseTail(head, s, pos, next, args).tree), id, args)
  {
  }

  lemma SpecTakesNext(s: string, pos: nat, id: nat, args: Arguments)
    requires pos <= |s| && ParseSpecs(s, pos, id, args).Some? && NoDynamicSpecs(args)
    ensures ParseSpecs(s, pos, id, args).value.next == id + 1
  {
    assert TakesNoArgument(id, s[pos..], args);
  }

  /**
   Fields take existing arguments in increasing order, and exactly 0, 1, 2, ... unless a
   specification asks for arguments of its own.
   */
  lemma {:induction false} FieldsInOrder(s: string, pos: nat, id: nat, args: Arguments)
    requires pos < |s| && CompileAt(s, pos, id, args).Compiled?
    ensures InOrder(Fields(CompileAt(s, pos, id, args).tree), id, args)
    decreases |s| - pos
  {
    hide ParseTail, InOrder, NoDynamicSpecs, ParseSpecs;
    if s[pos] == '{' {
      if s[pos + 1] == '{' {
        NextInOrder(Text(s[pos..pos + 1]), s, pos, pos + 2, id, id, args);
      } else if s[pos + 1] == '}' {
        NextInOrder(Field(id), s, pos, pos + 2, id, id + 1, args);
      } else {
        var p := ParseSpecs(s, pos + 2, id, args).value;
        if NoDynamicSpecs(args) {
          SpecTakesNext(s, pos + 2, id, args);
        }
        if p.end > |s| {
          PastEndFails(SpecField(id, p.spec), s, p.end, p.next, args);
        } else {
          NextInOrder(SpecField(id, p.spec), s, pos, p.end, id, p.next, args);
        }
      }
    } else if s[pos] == '}' {
      NextInOrder(Text(s[pos..pos + 1]), s, pos, pos + 2, id, id, args);
    } else {
      var end := TextEnd(s, pos + 1);
      NextInOrder(if end - pos > 1 then Text(s[pos..end]) else CodeUnit(s[pos]), s, pos, end, id, id, args);
    }
  }

  lemma NextInOrder(head: Tree, s: string, before: nat, pos: nat, id: nat, next: nat, args: Arguments)
    requires before < pos <= |s| && ParseTail(head, s, pos, next, args).Compiled?
    requires HeadTakes(head, id, next, args)
    ensures InOrder(Fields(ParseTail(head, s, pos, next, args).tree), id, args)
    decreases |s| - before, 0
  {
    hide ParseTail, CompileAt, InOrder, NoDynamicSpecs, Fields;
    if pos < |s| && CompileAt(s, pos, next, args).Compiled? {
      FieldsInOrder(s, pos, next, args);
    }
    TailInOrder(head, s, pos, id, next, args);
  }

  // ---------------------------------------------------------------------------
  // Doubled braces
  // ---------------------------------------------------------------------------

  const BRACES: set<char> := {'{', '}'}

  lemma {:induction false} InterpretDoubled(text: string, j: nat, id: nat, args: Arguments)
    requires j <= |text| && |Doubled(text, BRACES, j)| <= |Doubled(text, BRACES, |text|)|
    ensures var s := Doubled(text, BRACES, |text|);
      && Interpret(s, |Doubled(text, BRACES, j)|, id, args) == Printed(text[j..])
      && !Swallows(s, |Doubled(text, BRACES, j)|, id, args)
    decreases |text| - j
  {
    hide Doubled, ParseSpecs;
    var s, p := Doubled(text, BRACES, |text|), |Doubled(text, BRACES, j)|;
    if j < |text| {
      DoubledAt(text, BRACES, j);
      DoubledGrows(text, BRACES, j + 1);
      assert text[j..] == [text[j]] + text[j + 1..];
      InterpretDoubled(text, j + 1, id, args);
      if !IsBrace(text[j]) {
        SwallowsText(s, p, id, args);
      }
    } else {
      assert text[j..] == "";
    }
  }

  /** A plain character in front swallows nothing. */
  lemma SwallowsText(s: string, pos: nat, id: nat, args: Arguments)
    requires pos < |s| && !IsBrace(s[pos])
    ensures Swallows(s, pos, id, args) == Swallows(s, pos + 1, id, args)
  {
  }

  /** Any text with its braces doubled compiles, for any arguments, back to that text. */
  lemma DoubledCompilesToText(text: string, args: Arguments)
    ensures var c := Compile(Doubled(text, BRACES, |text|), args);
      c.Compiled? && Format(c.tree, args) == text
  {
    hide Compile, Interpret, Swallows, Format;
    assert Doubled(text, BRACES, 0) == "";
    InterpretDoubled(text, 0, 0, args);
    CompiledMeansInterpreted(Doubled(text, BRACES, |text|), args);
    assert text[0..] == text;
  }
}
