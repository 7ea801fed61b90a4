/**
 The template compiler and expander: an escaping parser with a buffered literal, a part list in
 normal form, and an expander that threads the counters.

 A template source is a string whose characters stand for bytes. What stands between `{{` and `}}`
 is given to a parameter, parse; what the clock, the generator and the line files yield is given by
 others, for each use.
 */
module Template {
  import opened Outcome
  import opened MachineInts
  import opened Decimal
  import opened Text
  import Calendar
  import Division
  import Timestamp

  datatype Part =
    | Literal(bytes: string)
    | Uuid | Uuid4 | NowMs | NowNs | NowIso
    | Counter | CounterGlobal
    | RandInt(min: i64, max: i64) | RandHex(count: nat) | RandStr(len: nat)
    | VarRef(slot: nat)
    | Line(path: string)

  /** Names with a slot so far, in slot order. */
  type Registry = seq<string>

  datatype Error = Unclosed(at: nat) | BadExpression(reason: string)

  datatype Parsed = Parsed(part: Part, vars: Registry)

  type Parser = (string, Registry) -> Result<Parsed, Error>

  /** The per-worker counter, the process-wide one, and how often the outside has been asked. */
  datatype State = State(counter: u64, global: u64, asked: nat)

  /** A reading of the wall clock: nanoseconds since the epoch, whose seconds fit an i64. */
  type Instant = n: nat | n < 9_223_372_036_854_775_808_000_000_000

  /**
   The extracted variables by slot, and what the outside yields at each use: the time, a random number,
   and the text of an identifier, of random characters or of a line.
   */
  datatype World = World(
    vars: seq<Option<string>>, clock: nat -> Instant, draw: nat -> nat, outside: (Part, nat) -> string)

  /** A number between min and max; the parser admits no other bounds than min <= max. */
  function Between(min: i64, max: i64, draw: nat): (n: i64)
    ensures min <= max ==> min <= n <= max
  {
    if min >= max then min else min + draw % (max - min + 1)
  }

  function Millis(now: Instant): nat {
    now % 1_000_000_000 / 1_000_000
  }

  // --- what a part expands to ---

  ghost function Output(p: Part, st: State, w: World): string {
    match p
    case Literal(bytes) => bytes
    case Counter => Digits(st.counter)
    case CounterGlobal => Digits(st.global)
    case VarRef(slot) => if slot < |w.vars| && w.vars[slot].Some? then w.vars[slot].value else []
    case NowMs => Digits(w.clock(st.asked) / 1_000_000)
    case NowNs => Digits(w.clock(st.asked))
    case NowIso => Timestamp.Iso(w.clock(st.asked) / 1_000_000_000, Millis(w.clock(st.asked)))
    case RandInt(min, max) => SignedDigits(Between(min, max, w.draw(st.asked)))
    case _ => w.outside(p, st.asked)
  }

  function After(p: Part, st: State): State {
    match p
    case Literal(_) => st
    case VarRef(_) => st
    case Counter => st.(counter := Add64(st.counter, 1))
    case CounterGlobal => st.(global := Add64(st.global, 1))
    case _ => st.(asked := st.asked + 1)
  }

  function AfterAll(parts: seq<Part>, st: State): State {
    if parts == [] then st else After(parts[|parts| - 1], AfterAll(parts[..|parts| - 1], st))
  }

  ghost function Expand(parts: seq<Part>, st: State, w: World): string {
    if parts == [] then []
    else Expand(parts[..|parts| - 1], st, w) + Output(parts[|parts| - 1], AfterAll(parts[..|parts| - 1], st), w)
  }

  // --- the one-pass reference interpretation ---

  datatype Interpreted = Interpreted(text: string, vars: Registry, st: State)

  predicate Opens(rest: string) {
    |rest| >= 2 && rest[0] == '{' && rest[1] == '{'
  }

  predicate EscapedOpen(rest: string) {
    |rest| >= 4 && rest[0] == '{' && rest[1] == '{' && rest[2] == '{' && rest[3] == '{'
  }

  predicate EscapedClose(rest: string) {
    |rest| >= 4 && rest[0] == '}' && rest[1] == '}' && rest[2] == '}' && rest[3] == '}'
  }

  predicate Closes(s: string, i: nat) {
    i + 2 <= |s| && s[i] == '}' && s[i + 1] == '}'
  }

  /** Where the first `}}` at or after i starts. */
  ghost function FirstClose(s: string, i: nat): (r: Option<nat>)
    ensures r.Some? ==> i <= r.value && Closes(s, r.value)
    decreases |s| - i
  {
    if i + 1 >= |s| then None
    else if Closes(s, i) then Some(i)
    else FirstClose(s, i + 1)
  }

  // No closer stands before it, and there is none at all when there is no first one.
  lemma {:induction false} FirstCloseIsFirst(s: string, i: nat)
    ensures match FirstClose(s, i)
      case Some(at) => Closes(s, at) && i <= at && forall k: nat :: i <= k < at ==> !Closes(s, k)
      case None => forall k: nat :: i <= k ==> !Closes(s, k)
    decreases |s| - i
  {
    if i + 1 < |s| && !Closes(s, i) {
      FirstCloseIsFirst(s, i + 1);
    }
  }

  ghost function Prepend(text: string, r: Result<Interpreted, Error>): Result<Interpreted, Error> {
    if r.Err? then r else Ok(r.value.(text := text + r.value.text))
  }

  /**
   Emit the meaning of the template from left to right: two bytes for an escape, the part's output
   for an expression, any other byte as it is. pos is the position of rest in the source.
   */
  ghost function Interpret(parse: Parser, rest: string, pos: nat, vars: Registry, st: State,
      w: World): Result<Interpreted, Error>
    decreases |rest|
  {
    if rest == [] then Ok(Interpreted([], vars, st))
    else if EscapedOpen(rest) then Prepend("{{", Interpret(parse, rest[4..], pos + 4, vars, st, w))
    else if Opens(rest) then
      var close := FirstClose(rest, 2);
      if close.None? then Err(Unclosed(pos))
      else
        var parsed := parse(rest[2..close.value], vars);
        if parsed.Err? then Err(parsed.error)
        else Prepend(Output(parsed.value.part, st, w),
                     Interpret(parse, rest[close.value + 2..], pos + close.value + 2, parsed.value.vars,
                               After(parsed.value.part, st), w))
    else if EscapedClose(rest) then Prepend("}}", Interpret(parse, rest[4..], pos + 4, vars, st, w))
    else Prepend([rest[0]], Interpret(parse, rest[1..], pos + 1, vars, st, w))
  }

  // --- the compiler ---

  datatype Compiled = Compiled(parts: seq<Part>, vars: Registry)

  /** Move the buffered literal, if any, to the part list. */
  function Flush(literal: string, parts: seq<Part>): seq<Part> {
    if literal == [] then parts else parts + [Literal(literal)]
  }

  /** What the loop of the compiler makes of the rest of the source. */
  ghost function CompileRest(parse: Parser, rest: string, pos: nat, literal: string, parts: seq<Part>, vars: Registry)
    : Result<Compiled, Error>
    decreases |rest|
  {
    if rest == [] then Ok(Compiled(Flush(literal, parts), vars))
    else if EscapedOpen(rest) then CompileRest(parse, rest[4..], pos + 4, literal + "{{", parts, vars)
    else if Opens(rest) then
      var close := FirstClose(rest, 2);
      if close.None? then Err(Unclosed(pos))
      else
        var parsed := parse(rest[2..close.value], vars);
        if parsed.Err? then Err(parsed.error)
        else CompileRest(parse, rest[close.value + 2..], pos + close.value + 2, [],
                         Flush(literal, parts) + [parsed.value.part], parsed.value.vars)
    else if EscapedClose(rest) then CompileRest(parse, rest[4..], pos + 4, literal + "}}", parts, vars)
    else CompileRest(parse, rest[1..], pos + 1, literal + [rest[0]], parts, vars)
  }

  /** Add a part to a list, folding a literal into a literal at its end. */
  function Fold(parts: seq<Part>, p: Part): seq<Part> {
    if |parts| > 0 && parts[|parts| - 1].Literal? && p.Literal?
    then parts[..|parts| - 1] + [Literal(parts[|parts| - 1].bytes + p.bytes)]
    else parts + [p]
  }

  function Coalesced(parts: seq<Part>): seq<Part> {
    if parts == [] then [] else Fold(Coalesced(parts[..|parts| - 1]), parts[|parts| - 1])
  }

  ghost function CompileSpec(parse: Parser, src: string, vars: Registry): Result<Compiled, Error> {
    var r := CompileRest(parse, src, 0, [], [], vars);
    if r.Err? then r else Ok(r.value.(parts := Coalesced(r.value.parts)))
  }

  method FindDoubleClose(haystack: string) returns (r: Option<nat>)
    ensures r == FirstClose(haystack, 0)
  {
    var i := 0;
    while i + 1 < |haystack|
      invariant FirstClose(haystack, 0) == FirstClose(haystack, i)
    {
      if haystack[i] == '}' && haystack[i + 1] == '}' {
        return Some(i);
      }
      i := i + 1;
    }
    r := None;
  }

  method CoalesceLiterals(parts: seq<Part>) returns (out: seq<Part>)
    ensures out == Coalesced(parts)
  {
    out := [];
    for k := 0 to |parts|
      invariant out == Coalesced(parts[..k])
    {
      assert parts[..k + 1][..k] == parts[..k];
      if |out| > 0 && out[|out| - 1].Literal? && parts[k].Literal? {
        out := out[|out| - 1 := Literal(out[|out| - 1].bytes + parts[k].bytes)];
      } else {
        out := out + [parts[k]];
      }
    }
    assert parts[..|parts|] == parts;
  }

  method Compile(parse: Parser, src: string, vars: Registry) returns (r: Result<Compiled, Error>)
    ensures r == CompileSpec(parse, src, vars)
  {
    var parts: seq<Part> := [];
    var literal: string := [];
    var registry := vars;
    var i := 0;
    ghost var whole := CompileRest(parse, src, 0, [], [], vars);
    assert src[0..] == src;
    while i < |src|
      invariant i <= |src|
      invariant whole == CompileRest(parse, src[i..], i, literal, parts, registry)
    {
      var b := src[i];
      if b == '{' && i + 1 < |src| && src[i + 1] == '{' {
        if i + 3 < |src| && src[i + 2] == '{' && src[i + 3] == '{' {
          StepText(parse, src, i, "{{", 4, literal, parts, registry);
          literal := literal + "{{";
          i := i + 4;
          continue;
        }
        var done, next := CompileExpression(parse, src, i, literal, parts, registry);
        if done.Err? {
          return done;
        }
        literal, parts, registry := [], done.value.parts, done.value.vars;
        i := next;
        continue;
      }
      if b == '}' && i + 3 < |src| && src[i + 1] == '}' && src[i + 2] == '}' && src[i + 3] == '}' {
        StepText(parse, src, i, "}}", 4, literal, parts, registry);
        literal := literal + "}}";
        i := i + 4;
        continue;
      }
      StepText(parse, src, i, [b], 1, literal, parts, registry);
      literal := literal + [b];
      i := i + 1;
    }
    parts := Flush(literal, parts);
    parts := CoalesceLiterals(parts);
    r := Ok(Compiled(parts, registry));
  }

  /** The expression that opens at i: flush the literal, add the part, and go on behind the closer. */
  method CompileExpression(parse: Parser, src: string, i: nat, literal: string, parts: seq<Part>, vars: Registry)
    returns (r: Result<Compiled, Error>, next: nat)
    requires i + 2 <= |src| && Opens(src[i..]) && !EscapedOpen(src[i..])
    ensures r.Err? ==> CompileRest(parse, src[i..], i, literal, parts, vars) == r
    ensures r.Ok? ==> i < next <= |src| && CompileRest(parse, src[i..], i, literal, parts, vars)
                                        == CompileRest(parse, src[next..], next, [], r.value.parts, r.value.vars)
  {
    StepExpression(parse, src, i, literal, parts, vars);
    var close := FindDoubleClose(src[i + 2..]);
    if close.None? {
      return Err(Unclosed(i)), i;
    }
    var exprEnd := i + 2 + close.value;
    var flushed := Flush(literal, parts);
    var parsed := parse(src[i + 2..exprEnd], vars);
    if parsed.Err? {
      return Err(parsed.error), i;
    }
    return Ok(Compiled(flushed + [parsed.value.part], parsed.value.vars)), exprEnd + 2;
  }

  // One turn of the loop that buffers text.
  lemma {:induction false} StepText(parse: Parser, src: string, i: nat, text: string, n: nat, literal: string,
      parts: seq<Part>, vars: Registry)
    requires i < |src|
    requires var rest := src[i..];
      if EscapedOpen(rest) then text == "{{" && n == 4
      else if Opens(rest) then false
      else if EscapedClose(rest) then text == "}}" && n == 4
      else text == [src[i]] && n == 1
    ensures i + n <= |src|
    ensures CompileRest(parse, src[i..], i, literal, parts, vars)
         == CompileRest(parse, src[i + n..], i + n, literal + text, parts, vars)
  {
    assert src[i..][n..] == src[i + n..];
  }

  // One turn of the loop at an expression.
  lemma StepExpression(parse: Parser, src: string, i: nat, literal: string, parts: seq<Part>,
      vars: Registry)
    requires i + 2 <= |src| && Opens(src[i..]) && !EscapedOpen(src[i..])
    ensures var close := FirstClose(src[i + 2..], 0);
      var c := CompileRest(parse, src[i..], i, literal, parts, vars);
      if close.None? then c == Err(Unclosed(i))
      else
        var parsed := parse(src[i + 2..i + 2 + close.value], vars);
        if parsed.Err? then c == Err(parsed.error)
        else c == CompileRest(parse, src[i + 4 + close.value..], i + 4 + close.value, [],
                              Flush(literal, parts) + [parsed.value.part], parsed.value.vars)
  {
    CloseShift(src[i..], src[i + 2..], 0);
    var close := FirstClose(src[i + 2..], 0);
    if close.Some? {
      assert src[i..][2..close.value + 2] == src[i + 2..i + 2 + close.value];
      assert src[i..][close.value + 4..] == src[i + 4 + close.value..];
    }
  }

  lemma {:induction false} CloseShift(s: string, t: string, i: nat)
    requires |s| >= 2 && t == s[2..]
    ensures FirstClose(s, i + 2) == (if FirstClose(t, i).Some? then Some(FirstClose(t, i).value + 2) else None)
    decreases |t| - i
  {
    if i + 1 < |t| {
      CloseShift(s, t, i + 1);
    }
  }

  // --- compiling preserves the meaning ---

  lemma {:induction false} ExpandSnoc(parts: seq<Part>, p: Part, st: State, w: World)
    ensures AfterAll(parts + [p], st) == After(p, AfterAll(parts, st))
    ensures Expand(parts + [p], st, w) == Expand(parts, st, w) + Output(p, AfterAll(parts, st), w)
  {
    assert (parts + [p])[..|parts|] == parts;
  }

  lemma {:induction false} ExpandFlush(literal: string, parts: seq<Part>, st: State, w: World)
    ensures AfterAll(Flush(literal, parts), st) == AfterAll(parts, st)
    ensures Expand(Flush(literal, parts), st, w) == Expand(parts, st, w) + literal
  {
    ExpandSnoc(parts, Literal(literal), st, w);
  }

  // What the compiler has done so far, followed by the meaning of the rest.
  ghost predicate Agrees(c: Result<Compiled, Error>, done: string, r: Result<Interpreted, Error>, st: State, w: World) {
    match r
    case Err(e) => c == Err(e)
    case Ok(i) =>
      && c.Ok? && c.value.vars == i.vars && AfterAll(c.value.parts, st) == i.st
      && Expand(c.value.parts, st, w) == done + i.text
  }

  lemma {:induction false} AgreesPrepend(c: Result<Compiled, Error>, done: string, text: string,
      r: Result<Interpreted, Error>, st: State, w: World)
    requires Agrees(c, done + text, r, st, w)
    ensures Agrees(c, done, Prepend(text, r), st, w)
  {
    if r.Ok? {
      Regroup(done, text, r.value.text);
    }
  }

  lemma {:induction false} CompileRestAgrees(parse: Parser, rest: string, pos: nat, literal: string,
      parts: seq<Part>, vars: Registry, st: State, w: World)
    ensures Agrees(CompileRest(parse, rest, pos, literal, parts, vars), Expand(parts, st, w) + literal,
                   Interpret(parse, rest, pos, vars, AfterAll(parts, st), w), st, w)
    decreases |rest|
  {
    var done := Expand(parts, st, w);
    if rest == [] {
      ExpandFlush(literal, parts, st, w);
      assert done + literal + [] == done + literal;
    } else if Opens(rest) && !EscapedOpen(rest) {
      ExpressionAgrees(parse, rest, pos, literal, parts, vars, st, w,
                       CompileRest(parse, rest, pos, literal, parts, vars),
                       Interpret(parse, rest, pos, vars, AfterAll(parts, st), w));
    } else {
      var text, n := if EscapedOpen(rest) then "{{" else if EscapedClose(rest) then "}}" else [rest[0]],
                     if EscapedOpen(rest) || EscapedClose(rest) then 4 else 1;
      CompileRestAgrees(parse, rest[n..], pos + n, literal + text, parts, vars, st, w);
      Regroup(done, literal, text);
      AgreesPrepend(CompileRest(parse, rest, pos, literal, parts, vars), done + literal, text,
                    Interpret(parse, rest[n..], pos + n, vars, AfterAll(parts, st), w), st, w);
    }
  }

  lemma {:induction false} ExpressionAgrees(parse: Parser, rest: string, pos: nat, literal: string, parts: seq<Part>,
      vars: Registry, st: State, w: World, c: Result<Compiled, Error>, r: Result<Interpreted, Error>)
    requires Opens(rest) && !EscapedOpen(rest)
    requires c == CompileRest(parse, rest, pos, literal, parts, vars)
    requires r == Interpret(parse, rest, pos, vars, AfterAll(parts, st), w)
    ensures Agrees(c, Expand(parts, st, w) + literal, r, st, w)
    decreases |rest|, 0
  {
    var close := FirstClose(rest, 2);
    if close.Some? && parse(rest[2..close.value], vars).Ok? {
      var parsed := parse(rest[2..close.value], vars).value;
      var q := AfterAll(parts, st);
      var c', r' := ExpressionUnfolds(parse, rest, pos, literal, parts, vars, q, w, close.value, parsed);
      BehindAgrees(parse, rest[close.value + 2..], pos + close.value + 2, literal, parts, parsed, st, w, q, c', r');
    }
  }

  // The part, and what comes behind it.
  lemma {:induction false} BehindAgrees(parse: Parser, rest: string, pos: nat, literal: string, parts: seq<Part>,
      parsed: Parsed, st: State, w: World, q: State, c: Result<Compiled, Error>, r: Result<Interpreted, Error>)
    requires q == AfterAll(parts, st)
    requires c == CompileRest(parse, rest, pos, [], Flush(literal, parts) + [parsed.part], parsed.vars)
    requires r == Interpret(parse, rest, pos, parsed.vars, After(parsed.part, q), w)
    ensures Agrees(c, Expand(parts, st, w) + literal, Prepend(Output(parsed.part, q, w), r), st, w)
    decreases |rest| + 1
  {
    var more := Flush(literal, parts) + [parsed.part];
    AfterFlush(literal, parts, parsed.part, st);
    CompileRestAgrees(parse, rest, pos, [], more, parsed.vars, st, w);
    PartThenAgrees(literal, parts, parsed.part, st, w, Expand(more, st, w) + [], c, r);
  }

  lemma {:induction false} AfterFlush(literal: string, parts: seq<Part>, p: Part, st: State)
    ensures AfterAll(Flush(literal, parts) + [p], st) == After(p, AfterAll(parts, st))
  {
    assert (Flush(literal, parts) + [p])[..|Flush(literal, parts)|] == Flush(literal, parts);
    assert literal != [] ==> (parts + [Literal(literal)])[..|parts|] == parts;
  }

  lemma {:induction false} PartThenAgrees(literal: string, parts: seq<Part>, p: Part, st: State, w: World,
      done: string, c: Result<Compiled, Error>, r: Result<Interpreted, Error>)
    requires done == Expand(Flush(literal, parts) + [p], st, w) + [] && Agrees(c, done, r, st, w)
    ensures Agrees(c, Expand(parts, st, w) + literal, Prepend(Output(p, AfterAll(parts, st), w), r), st, w)
  {
    PartAgrees(literal, parts, p, st, w);
    AgreesPrepend(c, Expand(parts, st, w) + literal, Output(p, AfterAll(parts, st), w), r, st, w);
  }

  lemma {:induction false} ExpressionUnfolds(parse: Parser, rest: string, pos: nat, literal: string,
      parts: seq<Part>, vars: Registry, q: State, w: World, close: nat, parsed: Parsed)
    returns (c: Result<Compiled, Error>, r: Result<Interpreted, Error>)
    requires Opens(rest) && !EscapedOpen(rest) && FirstClose(rest, 2) == Some(close)
    requires parse(rest[2..close], vars) == Ok(parsed)
    ensures c == CompileRest(parse, rest[close + 2..], pos + close + 2, [], Flush(literal, parts) + [parsed.part],
                             parsed.vars)
    ensures r == Interpret(parse, rest[close + 2..], pos + close + 2, parsed.vars, After(parsed.part, q), w)
    ensures CompileRest(parse, rest, pos, literal, parts, vars) == c
    ensures Interpret(parse, rest, pos, vars, q, w) == Prepend(Output(parsed.part, q, w), r)
  {
    c := CompileRest(parse, rest[close + 2..], pos + close + 2, [], Flush(literal, parts) + [parsed.part], parsed.vars);
    r := Interpret(parse, rest[close + 2..], pos + close + 2, parsed.vars, After(parsed.part, q), w);
  }

  lemma {:induction false} PartAgrees(literal: string, parts: seq<Part>, p: Part, st: State, w: World)
    ensures var more := Flush(literal, parts) + [p];
      && AfterAll(more, st) == After(p, AfterAll(parts, st))
      && Expand(more, st, w) + [] == Expand(parts, st, w) + literal + Output(p, AfterAll(parts, st), w)
  {
    ExpandFlush(literal, parts, st, w);
    ExpandSnoc(Flush(literal, parts), p, st, w);
    AppendNothing(Expand(parts, st, w) + literal + Output(p, AfterAll(parts, st), w));
  }

  lemma AppendNothing(s: string)
    ensures s + [] == s
  {}

  lemma {:induction false} FoldKeepsMeaning(parts: seq<Part>, p: Part, st: State, w: World)
    ensures AfterAll(Fold(parts, p), st) == AfterAll(parts + [p], st)
    ensures Expand(Fold(parts, p), st, w) == Expand(parts + [p], st, w)
  {
    if |parts| > 0 && parts[|parts| - 1].Literal? && p.Literal? {
      var front, last := parts[..|parts| - 1], parts[|parts| - 1];
      assert parts == front + [last];
      ExpandSnoc(front, last, st, w);
      ExpandSnoc(parts, p, st, w);
      ExpandSnoc(front, Literal(last.bytes + p.bytes), st, w);
      Regroup(Expand(front, st, w), last.bytes, p.bytes);
    }
  }

  lemma {:induction false} CoalescedKeepsMeaning(parts: seq<Part>, st: State, w: World)
    ensures AfterAll(Coalesced(parts), st) == AfterAll(parts, st)
    ensures Expand(Coalesced(parts), st, w) == Expand(parts, st, w)
  {
    if parts != [] {
      var front, p := parts[..|parts| - 1], parts[|parts| - 1];
      CoalescedKeepsMeaning(front, st, w);
      FoldKeepsMeaning(Coalesced(front), p, st, w);
      ExpandSnoc(Coalesced(front), p, st, w);
    }
  }

  // Compiling and then expanding is interpreting, with the same failures, from every state of the
  // counters.
  lemma {:induction false} CompilePreservesMeaning(parse: Parser, src: string, vars: Registry, st: State, w: World)
    ensures match Interpret(parse, src, 0, vars, st, w)
      case Err(e) => CompileSpec(parse, src, vars) == Err(e)
      case Ok(i) =>
        && CompileSpec(parse, src, vars).Ok?
        && CompileSpec(parse, src, vars).value.vars == i.vars
        && Expand(CompileSpec(parse, src, vars).value.parts, st, w) == i.text
        && AfterAll(CompileSpec(parse, src, vars).value.parts, st) == i.st
  {
    CompileRestAgrees(parse, src, 0, [], [], vars, st, w);
    var c := CompileRest(parse, src, 0, [], [], vars);
    if c.Ok? {
      CoalescedKeepsMeaning(c.value.parts, st, w);
    }
  }

  // --- normal form ---

  ghost predicate NoAdjacentLiterals(parts: seq<Part>) {
    forall i :: 0 < i < |parts| ==> !(parts[i - 1].Literal? && parts[i].Literal?)
  }

  lemma {:induction false} CoalescedIsNormal(parts: seq<Part>)
    ensures NoAdjacentLiterals(Coalesced(parts))
  {
    if parts != [] {
      CoalescedIsNormal(parts[..|parts| - 1]);
    }
  }

  lemma CompiledIsNormal(parse: Parser, src: string, vars: Registry)
    ensures CompileSpec(parse, src, vars).Ok? ==> NoAdjacentLiterals(CompileSpec(parse, src, vars).value.parts)
  {
    var c := CompileRest(parse, src, 0, [], [], vars);
    if c.Ok? {
      CoalescedIsNormal(c.value.parts);
    }
  }

  predicate IsStatic(parts: seq<Part>) {
    forall i :: 0 <= i < |parts| ==> parts[i].Literal?
  }

  // A static template in normal form is at most one literal, and that is what it expands to.
  lemma {:induction false} StaticIsOneLiteral(parts: seq<Part>, st: State, w: World)
    requires NoAdjacentLiterals(parts) && IsStatic(parts)
    ensures |parts| <= 1 && AfterAll(parts, st) == st
    ensures Expand(parts, st, w) == if parts == [] then [] else parts[0].bytes
  {
    if |parts| > 1 {
      StaticPairIsAdjacent(parts);
    }
  }

  lemma StaticPairIsAdjacent(parts: seq<Part>)
    requires |parts| > 1 && IsStatic(parts)
    ensures !NoAdjacentLiterals(parts)
  {
    assert parts[1 - 1].Literal? && parts[1].Literal?;
  }

  // --- escaping ---

  /** Every `{{` and `}}`, taken from left to right, doubled. */
  function Escaped(s: string): string
    decreases |s|
  {
    if s == [] then []
    else if Opens(s) then "{{{{" + Escaped(s[2..])
    else if Closes(s, 0) then "}}}}" + Escaped(s[2..])
    else [s[0]] + Escaped(s[1..])
  }

  lemma {:induction false} EscapedFirst(s: string)
    ensures s == [] <==> Escaped(s) == []
    ensures s != [] ==> Escaped(s)[0] == s[0]
  {
    if s == [] {
    } else if Opens(s) {
      assert Escaped(s) == "{{{{" + Escaped(s[2..]);
    } else if Closes(s, 0) {
      assert Escaped(s) == "}}}}" + Escaped(s[2..]);
    } else {
      assert Escaped(s) == [s[0]] + Escaped(s[1..]);
    }
  }

  // An escaped text means itself, wherever it stands and whatever the expressions are.
  lemma {:induction false} EscapedMeansItself(parse: Parser, s: string, pos: nat, vars: Registry, st: State, w: World)
    ensures Interpret(parse, Escaped(s), pos, vars, st, w) == Ok(Interpreted(s, vars, st))
    decreases |s|
  {
    if s == [] {
    } else if Opens(s) {
      assert EscapedOpen(Escaped(s)) && Escaped(s)[4..] == Escaped(s[2..]);
      EscapedMeansItself(parse, s[2..], pos + 4, vars, st, w);
      assert s == "{{" + s[2..];
    } else if Closes(s, 0) {
      assert EscapedClose(Escaped(s)) && Escaped(s)[4..] == Escaped(s[2..]);
      EscapedMeansItself(parse, s[2..], pos + 4, vars, st, w);
      assert s == "}}" + s[2..];
    } else {
      assert Escaped(s)[1..] == Escaped(s[1..]);
      EscapedFirst(s[1..]);
      EscapedMeansItself(parse, s[1..], pos + 1, vars, st, w);
      assert s == [s[0]] + s[1..];
    }
  }

  // --- a template of plain text and expressions ---

  datatype Chunk = Text(s: string) | Expression(e: string)

  // Text without braces, and expressions that end with the first closer behind them.
  ghost predicate Plain(c: Chunk) {
    match c
    case Text(s) => forall i :: 0 <= i < |s| ==> s[i] != '{' && s[i] != '}'
    case Expression(e) => !Opens(e) && forall k: nat :: k < |e| ==> !Closes(e + "}}", k)
  }

  ghost function SourceOf(c: Chunk): string {
    match c
    case Text(s) => s
    case Expression(e) => "{{" + e + "}}"
  }

  ghost function Source(chunks: seq<Chunk>): string {
    if chunks == [] then [] else SourceOf(chunks[0]) + Source(chunks[1..])
  }

  /** Text stands for itself, and an expression for the output of its part; the first that fails, fails. */
  ghost function Meaning(parse: Parser, chunks: seq<Chunk>, vars: Registry, st: State,
      w: World): Result<Interpreted, Error>
  {
    if chunks == [] then Ok(Interpreted([], vars, st))
    else match chunks[0]
      case Text(s) => Prepend(s, Meaning(parse, chunks[1..], vars, st, w))
      case Expression(e) =>
        var parsed := parse(e, vars);
        if parsed.Err? then Err(parsed.error)
        else Prepend(Output(parsed.value.part, st, w),
                     Meaning(parse, chunks[1..], parsed.value.vars, After(parsed.value.part, st), w))
  }

  lemma {:induction false} TextMeans(parse: Parser, s: string, rest: string, pos: nat, vars: Registry, st: State,
      w: World)
    requires Plain(Text(s))
    ensures Interpret(parse, s + rest, pos, vars, st, w) == Prepend(s, Interpret(parse, rest, pos + |s|, vars, st, w))
    decreases |s|
  {
    if s == [] {
      assert s + rest == rest;
      PrependNothing(Interpret(parse, rest, pos, vars, st, w));
    } else {
      TextMeans(parse, s[1..], rest, pos + 1, vars, st, w);
      assert (s + rest)[1..] == s[1..] + rest;
      PrependTwice(s, Interpret(parse, rest, pos + |s|, vars, st, w));
    }
  }

  lemma PrependNothing(r: Result<Interpreted, Error>)
    ensures Prepend([], r) == r
  {
    if r.Ok? {
      assert [] + r.value.text == r.value.text;
    }
  }

  lemma PrependTwice(s: string, r: Result<Interpreted, Error>)
    requires s != []
    ensures Prepend([s[0]], Prepend(s[1..], r)) == Prepend(s, r)
  {
    if r.Ok? {
      Regroup([s[0]], s[1..], r.value.text);
      assert [s[0]] + s[1..] == s;
    }
  }

  lemma {:induction false} CloseAt(s: string, i: nat, at: nat)
    requires i <= at && Closes(s, at) && forall k: nat :: i <= k < at ==> !Closes(s, k)
    ensures FirstClose(s, i) == Some(at)
    decreases at - i
  {
    if i < at {
      CloseAt(s, i + 1, at);
    }
  }

  lemma ExpressionCloses(e: string, rest: string, all: string)
    requires Plain(Expression(e)) && all == "{{" + e + "}}" + rest
    ensures Opens(all) && !EscapedOpen(all) && FirstClose(all, 2) == Some(|e| + 2)
    ensures all[2..|e| + 2] == e && all[|e| + 4..] == rest
  {
    forall k: nat | 2 <= k < |e| + 2
      ensures !Closes(all, k)
    {
      assert !Closes(e + "}}", k - 2);
      assert all[k] == (e + "}}")[k - 2] && all[k + 1] == (e + "}}")[k - 1];
    }
    CloseAt(all, 2, |e| + 2);
  }

  lemma {:induction false} ExpressionMeans(parse: Parser, e: string, rest: string, pos: nat, vars: Registry, st: State,
      w: World)
    requires Plain(Expression(e))
    ensures Interpret(parse, "{{" + e + "}}" + rest, pos, vars, st, w) ==
      if parse(e, vars).Err? then Err(parse(e, vars).error)
      else
        var parsed := parse(e, vars).value;
        Prepend(Output(parsed.part, st, w),
                Interpret(parse, rest, pos + |e| + 4, parsed.vars, After(parsed.part, st), w))
  {
    ExpressionCloses(e, rest, "{{" + e + "}}" + rest);
  }

  // A source of plain chunks means what its chunks mean, one after the other.
  lemma {:induction false} SourceMeans(parse: Parser, chunks: seq<Chunk>, pos: nat, vars: Registry, st: State, w: World)
    requires forall i :: 0 <= i < |chunks| ==> Plain(chunks[i])
    ensures Interpret(parse, Source(chunks), pos, vars, st, w) == Meaning(parse, chunks, vars, st, w)
    decreases |chunks|
  {
    if chunks != [] {
      match chunks[0]
      case Text(s) =>
        TextMeans(parse, s, Source(chunks[1..]), pos, vars, st, w);
        SourceMeans(parse, chunks[1..], pos + |s|, vars, st, w);
      case Expression(e) =>
        if parse(e, vars).Ok? {
          var parsed := parse(e, vars).value;
          SourceMeans(parse, chunks[1..], pos + |e| + 4, parsed.vars, After(parsed.part, st), w);
        }
        ExpressionFirst(parse, e, chunks, pos, vars, st, w);
    }
  }

  lemma {:induction false} ExpressionFirst(parse: Parser, e: string, chunks: seq<Chunk>, pos: nat, vars: Registry,
      st: State, w: World)
    requires chunks != [] && chunks[0] == Expression(e) && Plain(Expression(e))
    requires parse(e, vars).Ok? ==>
      var parsed := parse(e, vars).value;
      Interpret(parse, Source(chunks[1..]), pos + |e| + 4, parsed.vars, After(parsed.part, st), w)
        == Meaning(parse, chunks[1..], parsed.vars, After(parsed.part, st), w)
    ensures Interpret(parse, Source(chunks), pos, vars, st, w) == Meaning(parse, chunks, vars, st, w)
  {
    ExpressionMeans(parse, e, Source(chunks[1..]), pos, vars, st, w);
  }

  // An opener without a closer behind it fails at its own position.
  lemma UnclosedFails(parse: Parser, e: string, pos: nat, vars: Registry, st: State, w: World)
    requires !Opens(e) && forall k: nat :: !Closes(e, k)
    ensures Interpret(parse, "{{" + e, pos, vars, st, w) == Err(Unclosed(pos))
  {
    var all := "{{" + e;
    assert all[2..] == e;
    CloseShift(all, e, 0);
    FirstCloseIsFirst(e, 0);
  }

  // Compiling an escaped text and expanding the result gives the text back.
  lemma {:induction false} EscapedRoundTrip(parse: Parser, s: string, vars: Registry, st: State, w: World)
    ensures var c := CompileSpec(parse, Escaped(s), vars);
      c.Ok? && c.value.vars == vars && Expand(c.value.parts, st, w) == s && AfterAll(c.value.parts, st) == st
  {
    EscapedMeansItself(parse, s, 0, vars, st, w);
    assert Interpret(parse, Escaped(s), 0, vars, st, w).Ok?;
    CompilePreservesMeaning(parse, Escaped(s), vars, st, w);
  }

  // --- the expander ---

  /** What a worker lends to the expansions of one request. */
  class Context {
    var counter: u64
    var global: u64
    var asked: nat
    const w: World

    constructor (w: World, counter: u64, global: u64)
      ensures this.w == w && Current() == State(counter, global, 0)
    {
      this.w, this.counter, this.global, asked := w, counter, global, 0;
    }

    function Current(): State
      reads this
    {
      State(counter, global, asked)
    }

    method ExpandPart(p: Part, out: string) returns (r: string)
      modifies this
      ensures r == out + Output(p, old(Current()), w) && Current() == After(p, old(Current()))
    {
      match p
      case Literal(bytes) =>
        r := out + bytes;
      case Counter =>
        var n := counter;
        counter := Add64(n, 1);
        r := WriteU64(out, n);
      case CounterGlobal =>
        var n := global;
        global := Add64(n, 1);
        r := WriteU64(out, n);
      case VarRef(slot) =>
        r := if slot < |w.vars| && w.vars[slot].Some? then out + w.vars[slot].value else out;
      case NowMs =>
        r := WriteU128(out, w.clock(asked) / 1_000_000);
        asked := asked + 1;
      case NowNs =>
        r := WriteU128(out, w.clock(asked));
        asked := asked + 1;
      case NowIso =>
        var now := w.clock(asked);
        r := Timestamp.WriteIso(out, now / 1_000_000_000, Millis(now));
        asked := asked + 1;
      case RandInt(min, max) =>
        r := WriteI64(out, Between(min, max, w.draw(asked)));
        asked := asked + 1;
      case _ =>
        r := out + w.outside(p, asked);
        asked := asked + 1;
    }

    method ExpandInto(parts: seq<Part>, out: string) returns (r: string)
      modifies this
      ensures r == out + Expand(parts, old(Current()), w) && Current() == AfterAll(parts, old(Current()))
    {
      r := out;
      for k := 0 to |parts|
        invariant Current() == AfterAll(parts[..k], old(Current()))
        invariant r == out + Expand(parts[..k], old(Current()), w)
      {
        assert parts[..k + 1] == parts[..k] + [parts[k]];
        ExpandSnoc(parts[..k], parts[k], old(Current()), w);
        Regroup(out, Expand(parts[..k], old(Current()), w), Output(parts[k], Current(), w));
        r := ExpandPart(parts[k], r);
      }
      assert parts[..|parts|] == parts;
    }
  }

  // --- the counter ---

  function CounterParts(parts: seq<Part>): nat {
    if parts == [] then 0
    else CounterParts(parts[..|parts| - 1]) + if parts[|parts| - 1].Counter? then 1 else 0
  }

  // The counter moves on by one, modulo 2^64, for each of its parts and for nothing else.
  lemma {:induction false} CounterThreads(parts: seq<Part>, st: State)
    ensures AfterAll(parts, st).counter == (st.counter + CounterParts(parts)) % 0x1_0000_0000_0000_0000
  {
    if parts != [] {
      CounterThreads(parts[..|parts| - 1], st);
    }
  }

  // So does the process-wide counter, and every use of the outside is a new one.
  function GlobalParts(parts: seq<Part>): nat {
    if parts == [] then 0
    else GlobalParts(parts[..|parts| - 1]) + if parts[|parts| - 1].CounterGlobal? then 1 else 0
  }

  function OutsideParts(parts: seq<Part>): nat {
    if parts == [] then 0
    else OutsideParts(parts[..|parts| - 1]) + if AsksOutside(parts[|parts| - 1]) then 1 else 0
  }

  predicate AsksOutside(p: Part) {
    !p.Literal? && !p.VarRef? && !p.Counter? && !p.CounterGlobal?
  }

  lemma {:induction false} OthersThread(parts: seq<Part>, st: State)
    ensures AfterAll(parts, st).global == (st.global + GlobalParts(parts)) % 0x1_0000_0000_0000_0000
    ensures AfterAll(parts, st).asked == st.asked + OutsideParts(parts)
  {
    if parts != [] {
      OthersThread(parts[..|parts| - 1], st);
    }
  }

  // The process-wide counter prints its value.
  lemma GlobalPrints(st: State, w: World)
    ensures Value(Output(CounterGlobal, st, w)) == st.global
  {
    ReadsBack(Output(CounterGlobal, st, w), st.global);
  }

  lemma {:induction false} ReadsBack(text: string, n: nat)
    requires text == Digits(n)
    ensures Value(text) == n
  {
    DigitsRoundTrip(n);
  }

  // So the counter part behind n others prints the starting value plus n.
  lemma {:induction false} CounterPrints(parts: seq<Part>, k: nat, st: State, w: World)
    requires k < |parts| && parts[k].Counter?
    ensures Expand(parts[..k + 1], st, w)
      == Expand(parts[..k], st, w) + Digits((st.counter + CounterParts(parts[..k])) % 0x1_0000_0000_0000_0000)
  {
    CounterThreads(parts[..k], st);
    CounterOutput(parts[k], AfterAll(parts[..k], st), w, AfterAll(parts[..k], st).counter);
    NextPrints(parts, k, st, w, Output(parts[k], AfterAll(parts[..k], st), w));
  }

  lemma CounterOutput(p: Part, st: State, w: World, n: u64)
    requires p.Counter? && st.counter == n
    ensures Output(p, st, w) == Digits(n)
  {}

  lemma NextPrints(parts: seq<Part>, k: nat, st: State, w: World, text: string)
    requires k < |parts| && text == Output(parts[k], AfterAll(parts[..k], st), w)
    ensures Expand(parts[..k + 1], st, w) == Expand(parts[..k], st, w) + text
  {
    ExpandSnoc(parts[..k], parts[k], st, w);
    assert parts[..k + 1] == parts[..k] + [parts[k]];
  }

  // --- the clock and the generator ---

  lemma MillisSplit(now: Instant)
    ensures now / 1_000_000 == now / 1_000_000_000 * 1000 + Millis(now) && Millis(now) < 1000
  {
    var secs, rest := now / 1_000_000_000, now % 1_000_000_000;
    Division.Quotient(now, 1_000_000, secs * 1000 + rest / 1_000_000);
  }

  // Two readings of the clock print in their order, down to the millisecond, in the years of four digits.
  lemma {:induction false} NowIsoKeepsOrder(st: State, st': State, w: World)
    requires w.clock(st.asked) / 1_000_000_000 < Timestamp.YEAR_10000
    requires w.clock(st'.asked) / 1_000_000_000 < Timestamp.YEAR_10000
    ensures Less(Output(NowIso, st, w), Output(NowIso, st', w))
      <==> w.clock(st.asked) / 1_000_000 < w.clock(st'.asked) / 1_000_000
  {
    IsoOfInstants(w.clock(st.asked), w.clock(st'.asked));
  }

  lemma {:induction false} IsoOfInstants(now: Instant, now': Instant)
    requires now / 1_000_000_000 < Timestamp.YEAR_10000 && now' / 1_000_000_000 < Timestamp.YEAR_10000
    ensures Less(Timestamp.Iso(now / 1_000_000_000, Millis(now)), Timestamp.Iso(now' / 1_000_000_000, Millis(now')))
      <==> now / 1_000_000 < now' / 1_000_000
  {
    MillisSplit(now);
    MillisSplit(now');
    Timestamp.IsoOrder(now / 1_000_000_000, Millis(now), now' / 1_000_000_000, Millis(now'));
  }

  // The clock prints as its nanoseconds, as its whole milliseconds, and as a text that reads back.
  lemma ClockPrints(st: State, w: World)
    ensures Value(Output(NowNs, st, w)) == w.clock(st.asked)
    ensures Value(Output(NowMs, st, w)) * 1_000_000 <= w.clock(st.asked)
    ensures w.clock(st.asked) < (Value(Output(NowMs, st, w)) + 1) * 1_000_000
  {
    ReadsBack(Output(NowNs, st, w), w.clock(st.asked));
    ReadsBack(Output(NowMs, st, w), w.clock(st.asked) / 1_000_000);
  }

  lemma NowIsoReads(st: State, w: World, secs: Timestamp.Seconds)
    requires secs * 1_000_000_000 <= w.clock(st.asked) < (secs + 1) * 1_000_000_000 && secs < Timestamp.YEAR_10000
    ensures Timestamp.Reads(Output(NowIso, st, w), Calendar.Civil(secs / 86_400), secs % 86_400,
                            (w.clock(st.asked) - secs * 1_000_000_000) / 1_000_000)
  {
    Division.Quotient(w.clock(st.asked), 1_000_000_000, secs);
    Timestamp.IsoReads(secs, Millis(w.clock(st.asked)));
  }

  // A variable expands to its value, and to nothing while it has none.
  lemma VariablePrints(slot: nat, st: State, w: World)
    ensures slot < |w.vars| && w.vars[slot].Some? ==> Output(VarRef(slot), st, w) == w.vars[slot].value
    ensures slot >= |w.vars| || w.vars[slot].None? ==> Output(VarRef(slot), st, w) == []
  {}

  // A random integer prints as one between its bounds.
  lemma {:induction false} RandIntStaysBetween(min: i64, max: i64, st: State, w: World) returns (n: i64)
    requires min <= max
    ensures min <= n <= max && Output(RandInt(min, max), st, w) == SignedDigits(n)
  {
    n := Between(min, max, w.draw(st.asked));
  }

  // Every integer between the bounds can be drawn.
  lemma EveryIntegerCanBeDrawn(min: i64, max: i64, n: i64)
    requires min <= n <= max
    ensures Between(min, max, n - min) == n
  {
    if min < max {
      SmallRemainder(n - min, max - min + 1);
    }
  }

  // Identifiers, random characters and lines are those that the outside gives at this use.
  lemma OutsidePrints(p: Part, st: State, w: World)
    requires p.Uuid? || p.Uuid4? || p.RandHex? || p.RandStr? || p.Line?
    ensures Output(p, st, w) == w.outside(p, st.asked) && After(p, st).asked == st.asked + 1
  {}

  lemma SmallRemainder(a: nat, b: nat)
    requires a < b
    ensures a % b == a
  {}
}
