/**
 Where the parser's error pointer stands: at the first place where no value, key, colon,
 comma or closing bracket can go on, after everything before it has been taken.
 */
module Faults {
  import opened CText
  import opened Json
  import opened Literal
  import opened Spelling
  import opened Syntax
  import RoundTrip

  /** A text that is well spelled up to a fault, by what was to come next. */
  datatype Fault =
    | NoValue
    | InElement(gap: Gap, done: seq<Element>, inner: Fault)
    | AfterElement(done: seq<Element>)
    | NoKey(gap: Gap, given: seq<Field>)
    | NoColon(gap: Gap, given: seq<Field>, key: seq<Piece>, colon: Gap)
    | InField(gap: Gap, given: seq<Field>, key: seq<Piece>, colon: Gap, start: Gap, inner: Fault)
    | AfterField(given: seq<Field>)

  /** The elements already taken, each with its comma, and the gap before the next. */
  function Taken(done: seq<Element>, gap: Gap, rest: string): string {
    if done == [] then GapThen(gap, rest) else ElementsThen(done, "," + GapThen(gap, rest))
  }

  function Given(done: seq<Field>, gap: Gap, rest: string): string {
    if done == [] then GapThen(gap, rest) else FieldsThen(done, "," + GapThen(gap, rest))
  }

  /** The text up to the fault, and the text from it on. */
  function FaultThen(f: Fault, at: string): string {
    match f
    case NoValue => at
    case InElement(gap, done, inner) => "[" + Taken(done, gap, FaultThen(inner, at))
    case AfterElement(done) => "[" + if done == [] then at else ElementsThen(done, at)
    case NoKey(gap, done) => "{" + Given(done, gap, at)
    case NoColon(gap, done, key, colon) => "{" + Given(done, gap, LiteralThen(key, GapThen(colon, at)))
    case InField(gap, done, key, colon, start, inner) =>
      "{" + Given(done, gap, LiteralThen(key, GapThen(colon, ":" + GapThen(start, FaultThen(inner, at)))))
    case AfterField(done) => "{" + if done == [] then at else FieldsThen(done, at)
  }

  /** No value starts here. */
  predicate StartsNothing(at: string) {
    && !IsDigit(At(at, 0)) && At(at, 0) !in "-\"[{"
    && !("null" <= at) && !("false" <= at) && !("true" <= at)
  }

  predicate Blanks(g: Gap) {
    ValidGap(g) && BlankGap(g)
  }

  ghost predicate Faulty(f: Fault, at: string) {
    && !IsBlank(At(at, 0))
    && match f
       case NoValue => StartsNothing(at)
       case InElement(gap, done, inner) =>
         Blanks(gap) && ValidElements(done) && Faulty(inner, at) && (inner.NoValue? && done == [] ==> At(at, 0) != ']')
       case AfterElement(done) =>
         && done != [] && ValidElements(done) && At(at, 0) !in ",]"
         && var last := done[|done| - 1]; EndsBefore(last.value, GapThen(last.after, at))
       case NoKey(gap, done) => Blanks(gap) && ValidFields(done) && At(at, 0) != '\"' && (done == [] ==> At(at, 0) != '}')
       case NoColon(gap, done, key, colon) =>
         Blanks(gap) && ValidFields(done) && Spelling.Valid(key) && Blanks(colon) && At(at, 0) != ':'
       case InField(gap, done, key, colon, start, inner) =>
         && Blanks(gap) && ValidFields(done) && Spelling.Valid(key) && Blanks(colon) && Blanks(start) && Faulty(inner, at)
       case AfterField(done) =>
         && done != [] && ValidFields(done) && At(at, 0) !in ",}"
         && var last := done[|done| - 1]; EndsBefore(last.value, GapThen(last.after, at))
  }

  // ---------------------------------------------------------- what was taken

  /** `parse_array` past elements that are each followed by a comma. */
  lemma {:induction false} PastElements(es: seq<Element>, done: seq<Value>, next: string)
    requires es != [] && ValidElements(es)
    ensures ParseItems(Skip(ElementsThen(es, "," + next)), done) == ParseItems(Skip(next), done + Values(es))
    decreases |es|
  {
    hide WellFormed, Uncommented, Meaning, ElementsThen, ParseItems, ParseValue, Skip, GapThen, Then, EndsBefore;
    var e, end := es[0], "," + next;
    ElementsStart(es, end);
    assert WellFormed(e.value) && Uncommented(e.value) && ValidGap(e.after) && BlankGap(e.after);
    var more := if |es| == 1 then end else "," + ElementsThen(es[1..], end);
    var tail := GapThen(e.after, more);
    FirstOf(",", if |es| == 1 then next else ElementsThen(es[1..], end));
    GapEnds(e.value, e.after, more);
    ValueSpelled(e.value, tail);
    RoundTrip.ItemStep(Then(e.value, tail), Meaning(e.value), tail, done);
    ValuesMove(done, es);
    hide ValidElements, Values;
    if |es| > 1 { PastElements(es[1..], done + [Meaning(e.value)], next); }
  }

  lemma MembersMove(done: seq<Member>, fs: seq<Field>)
    requires fs != [] && ValidFields(fs)
    ensures ValidField(fs[0]) && ValidFields(fs[1..])
    ensures done + [Member(Bytes(fs[0].key), Meaning(fs[0].value))] + Members(fs[1..]) == done + Members(fs)
  {
    hide WellFormed, Uncommented, Meaning, Bytes, Spelling.Valid, ValidGap, BlankGap;
    assert forall i | 0 <= i < |fs| - 1 :: fs[1..][i] == fs[i + 1];
  }

  lemma {:induction false} PastFields(fs: seq<Field>, done: seq<Member>, next: string)
    requires fs != [] && ValidFields(fs)
    ensures ParseMembers(Skip(FieldsThen(fs, "," + next)), done) == ParseMembers(Skip(next), done + Members(fs))
    decreases |fs|
  {
    hide WellFormed, Uncommented, Meaning, FieldsThen, ParseMembers, ParseValue, Skip, GapThen, Then, LiteralThen, EndsBefore, Bytes, Spelling.Valid;
    var f, end := fs[0], "," + next;
    var tail := FieldTail(fs, end);
    FirstOf(",", if |fs| == 1 then next else FieldsThen(fs[1..], end));
    FieldsStart(fs, end);
    assert ValidField(f) && WellFormed(f.value) && Uncommented(f.value) && ValidGap(f.after) && BlankGap(f.after);
    GapEnds(f.value, f.after, tail);
    ValueSpelled(f.value, GapThen(f.after, tail));
    FieldTaken(f, tail, done);
    hide ValidGap, BlankGap;
    var m := Member(Bytes(f.key), Meaning(f.value));
    if |fs| == 1 {
      assert Members(fs) == [m];
    } else {
      PastFields(fs[1..], done + [m], next);
      MembersMove(done, fs);
    }
  }

  // -------------------------------------------------------------- the faults

  /** Where a value was to come, the text of a fault starts with no blank, nor with what would close the array. */
  lemma FaultStarts(f: Fault, at: string)
    requires Faulty(f, at)
    ensures var s := FaultThen(f, at); !IsBlank(At(s, 0)) && (!f.NoValue? ==> At(s, 0) == '[' || At(s, 0) == '{')
  {
    hide Taken, Given, ElementsThen, FieldsThen, ValidElements, ValidFields, Spelling.Valid, EndsBefore;
  }

  lemma NothingParsed(at: string)
    requires StartsNothing(at)
    ensures ParseValue(at) == Fail(at)
  {
    hide ParseString, ParseNumber, ParseArray, ParseObject;
  }

  lemma ItemFails(s: string, at: string, done: seq<Value>)
    requires ParseValue(s) == Fail(at)
    ensures ParseItems(s, done) == Fail(at)
  {
    hide ParseValue;
  }

  lemma ItemUnended(s: string, v: Value, after: string, done: seq<Value>)
    requires ParseValue(s) == Ok(v, after) && At(Skip(after), 0) !in ",]"
    ensures ParseItems(s, done) == Fail(Skip(after))
  {
    hide ParseValue;
  }

  /** The last element is followed by something else. */
  lemma {:induction false} UnendedElements(es: seq<Element>, done: seq<Value>, at: string)
    requires es != [] && ValidElements(es) && !IsBlank(At(at, 0)) && At(at, 0) !in ",]"
    requires var last := es[|es| - 1]; EndsBefore(last.value, GapThen(last.after, at))
    ensures ParseItems(Skip(ElementsThen(es, at)), done) == Fail(at)
    decreases |es|
  {
    hide WellFormed, Uncommented, Meaning, ElementsThen, ParseItems, ParseValue, Skip, GapThen, Then, EndsBefore;
    var e := es[0];
    ElementsStart(es, at);
    assert WellFormed(e.value) && Uncommented(e.value) && ValidGap(e.after) && BlankGap(e.after);
    if |es| == 1 {
      var tail := GapThen(e.after, at);
      ValueSpelled(e.value, tail);
      GapSkipped(e.after, at);
      SkipStops(at);
      ItemUnended(Then(e.value, tail), Meaning(e.value), tail, done);
    } else {
      var more := "," + ElementsThen(es[1..], at);
      var tail := GapThen(e.after, more);
      FirstOf(",", ElementsThen(es[1..], at));
      GapEnds(e.value, e.after, more);
      ValueSpelled(e.value, tail);
      RoundTrip.ItemStep(Then(e.value, tail), Meaning(e.value), tail, done);
      UnendedElements(es[1..], done + [Meaning(e.value)], at);
    }
  }

  lemma MemberFails(s: string, done: seq<Member>)
    ensures At(s, 0) != '\"' ==> ParseMembers(s, done) == Fail(s)
    ensures ParseString(s).Ok? && At(Skip(ParseString(s).rest), 0) != ':' ==>
      ParseMembers(s, done) == Fail(Skip(ParseString(s).rest))
    ensures ParseString(s).Ok? && At(Skip(ParseString(s).rest), 0) == ':' ==>
      var value := Skip(Skip(ParseString(s).rest)[1..]);
      && (ParseValue(value).Fail? ==> ParseMembers(s, done) == Fail(ParseValue(value).at))
      && (ParseValue(value).Ok? && At(Skip(ParseValue(value).rest), 0) !in ",}" ==>
            ParseMembers(s, done) == Fail(Skip(ParseValue(value).rest)))
  {
    hide ParseValue, Skip, CountPass, Decode;
  }

  lemma {:induction false} UnendedFields(fs: seq<Field>, done: seq<Member>, at: string)
    requires fs != [] && ValidFields(fs) && !IsBlank(At(at, 0)) && At(at, 0) !in ",}"
    requires var last := fs[|fs| - 1]; EndsBefore(last.value, GapThen(last.after, at))
    ensures ParseMembers(Skip(FieldsThen(fs, at)), done) == Fail(at)
    decreases |fs|
  {
    hide WellFormed, Uncommented, Meaning, FieldsThen, ParseMembers, ParseValue, Skip, GapThen, Then, LiteralThen, EndsBefore, Bytes, Spelling.Valid, ParseString;
    var f := fs[0];
    FieldsStart(fs, at);
    assert ValidField(f) && WellFormed(f.value) && Uncommented(f.value) && ValidGap(f.after) && BlankGap(f.after);
    if |fs| == 1 {
      var tail := GapThen(f.after, at);
      ValueSpelled(f.value, tail);
      KeyTaken(f.key, f.colon, f.start, Then(f.value, tail));
      Starts(f.value, tail);
      SkipStops(Then(f.value, tail));
      GapSkipped(f.after, at);
      SkipStops(at);
      MemberFails(LiteralThen(f.key, GapThen(f.colon, ":" + GapThen(f.start, Then(f.value, tail)))), done);
    } else {
      var more := "," + FieldsThen(fs[1..], at);
      FirstOf(",", FieldsThen(fs[1..], at));
      GapEnds(f.value, f.after, more);
      ValueSpelled(f.value, GapThen(f.after, more));
      FieldTaken(f, more, done);
      UnendedFields(fs[1..], done + [Member(Bytes(f.key), Meaning(f.value))], at);
    }
  }

  /** The cursor after a key and its colon. */
  lemma KeyTaken(key: seq<Piece>, colon: Gap, start: Gap, value: string)
    requires Spelling.Valid(key) && Blanks(colon) && Blanks(start)
    ensures var s := LiteralThen(key, GapThen(colon, ":" + GapThen(start, value)));
      && ParseString(s).Ok? && At(Skip(ParseString(s).rest), 0) == ':'
      && Skip(Skip(ParseString(s).rest)[1..]) == Skip(value)
  {
    hide LiteralThen, ParseString, Bytes, Spelling.Valid, Skip, GapThen;
    var after := ":" + GapThen(start, value);
    LiteralTaken(key, GapThen(colon, after));
    FirstOf(":", GapThen(start, value));
    GapSkipped(colon, after);
    SkipStops(after);
    GapSkipped(start, value);
  }

  /** Parsing an array up to where its next element was to come. */
  lemma ArrayUpTo(gap: Gap, done: seq<Element>, next: string)
    requires Blanks(gap) && ValidElements(done) && (done == [] ==> At(Skip(next), 0) != ']')
    ensures exists taken :: ParseValue("[" + Taken(done, gap, next)) == ParseItems(Skip(next), taken)
  {
    hide ParseValue, ParseItems, Skip, GapThen, ElementsThen, ValidElements, Values;
    var s := "[" + Taken(done, gap, next);
    FirstOf("[", Taken(done, gap, next));
    ArrayOpens(s);
    GapSkipped(gap, next);
    if done != [] {
      ElementsStart(done, "," + GapThen(gap, next));
      PastElements(done, [], GapThen(gap, next));
    }
  }

  lemma ObjectUpTo(gap: Gap, given: seq<Field>, next: string)
    requires Blanks(gap) && ValidFields(given) && (given == [] ==> At(Skip(next), 0) != '}')
    ensures exists taken :: ParseValue("{" + Given(given, gap, next)) == ParseMembers(Skip(next), taken)
  {
    hide ParseValue, ParseMembers, Skip, GapThen, FieldsThen, ValidFields, Members;
    var s := "{" + Given(given, gap, next);
    FirstOf("{", Given(given, gap, next));
    ObjectOpens(s);
    GapSkipped(gap, next);
    if given != [] {
      FieldsStart(given, "," + GapThen(gap, next));
      PastFields(given, [], GapThen(gap, next));
    }
  }

  /** The parser fails, and its error pointer is where the fault is. */
  lemma {:induction false} FaultFound(f: Fault, at: string)
    requires Faulty(f, at)
    ensures ParseValue(FaultThen(f, at)) == Fail(at)
    decreases f
  {
    hide ParseValue, ParseItems, ParseMembers, Skip, ElementsThen, FieldsThen, GapThen, Taken, Given, LiteralThen, EndsBefore;
    hide StartsNothing, Spelling.Valid, ParseString, ValidElements, ValidFields;
    match f
    case NoValue => NothingParsed(at);
    case InElement(gap, done, inner) =>
      FaultFound(inner, at);
      FaultStarts(inner, at);
      var next := FaultThen(inner, at);
      SkipStops(next);
      ArrayUpTo(gap, done, next);
      var taken :| ParseValue("[" + Taken(done, gap, next)) == ParseItems(Skip(next), taken);
      ItemFails(next, at, taken);
    case AfterElement(done) => ElementFault(done, at);
    case NoKey(gap, given) =>
      SkipStops(at);
      ObjectUpTo(gap, given, at);
      var taken :| ParseValue("{" + Given(given, gap, at)) == ParseMembers(Skip(at), taken);
      MemberFails(at, taken);
    case NoColon(gap, given, key, colon) => ColonFault(gap, given, key, colon, at);
    case InField(gap, given, key, colon, start, inner) =>
      FaultFound(inner, at);
      FaultStarts(inner, at);
      FieldFault(gap, given, key, colon, start, FaultThen(inner, at), at);
    case AfterField(given) => FieldsFault(given, at);
  }

  lemma ElementFault(done: seq<Element>, at: string)
    requires Faulty(AfterElement(done), at)
    ensures ParseValue("[" + ElementsThen(done, at)) == Fail(at)
  {
    hide ParseValue, ParseItems, Skip, ElementsThen, EndsBefore, ValidElements;
    FirstOf("[", ElementsThen(done, at));
    ArrayOpens("[" + ElementsThen(done, at));
    ElementsStart(done, at);
    UnendedElements(done, [], at);
  }

  lemma FieldsFault(given: seq<Field>, at: string)
    requires Faulty(AfterField(given), at)
    ensures ParseValue("{" + FieldsThen(given, at)) == Fail(at)
  {
    hide ParseValue, ParseMembers, Skip, FieldsThen, EndsBefore, ValidFields;
    FirstOf("{", FieldsThen(given, at));
    ObjectOpens("{" + FieldsThen(given, at));
    FieldsStart(given, at);
    UnendedFields(given, [], at);
  }

  lemma ColonFault(gap: Gap, given: seq<Field>, key: seq<Piece>, colon: Gap, at: string)
    requires Faulty(NoColon(gap, given, key, colon), at)
    ensures ParseValue("{" + Given(given, gap, LiteralThen(key, GapThen(colon, at)))) == Fail(at)
  {
    hide ParseValue, ParseMembers, Skip, FieldsThen, GapThen, Given, LiteralThen, Spelling.Valid, ParseString, ValidFields, Bytes;
    var s := LiteralThen(key, GapThen(colon, at));
    LiteralTaken(key, GapThen(colon, at));
    SkipStops(s);
    GapSkipped(colon, at);
    SkipStops(at);
    ObjectUpTo(gap, given, s);
    var taken :| ParseValue("{" + Given(given, gap, s)) == ParseMembers(Skip(s), taken);
    MemberFails(s, taken);
  }

  lemma FieldFault(gap: Gap, given: seq<Field>, key: seq<Piece>, colon: Gap, start: Gap, value: string, at: string)
    requires Blanks(gap) && ValidFields(given) && Spelling.Valid(key) && Blanks(colon) && Blanks(start)
    requires !IsBlank(At(value, 0)) && ParseValue(value) == Fail(at)
    ensures ParseValue("{" + Given(given, gap, LiteralThen(key, GapThen(colon, ":" + GapThen(start, value))))) == Fail(at)
  {
    hide ParseValue, ParseMembers, Skip, FieldsThen, GapThen, Given, LiteralThen, Spelling.Valid, ParseString, ValidFields, Bytes;
    var s := LiteralThen(key, GapThen(colon, ":" + GapThen(start, value)));
    KeyTaken(key, colon, start, value);
    SkipStops(value);
    LiteralTaken(key, GapThen(colon, ":" + GapThen(start, value)));
    SkipStops(s);
    ObjectUpTo(gap, given, s);
    var taken :| ParseValue("{" + Given(given, gap, s)) == ParseMembers(Skip(s), taken);
    MemberFails(s, taken);
  }
}
