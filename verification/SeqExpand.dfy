/**
 The `~SEQ` construct of lib/parser.c: a line that stands for many, with sequences nested to any
 depth. The parser keeps the open sequences on a stack and produces one line at a time; here that
 is shown to be the nested loops the construct is documented as.
 */
module SeqExpand {
  import opened Arith
  import opened Numerals

  /** Definitions: the text each `$name` stands for. */
  type Env = map<string, string>

  datatype Option<T> = None | Some(value: T)

  // ----- Numbers as text

  /** `%ld`, or `%lx` of a number that is not negative */
  function Show(n: int, hex: bool): string {
    if hex && n >= 0 then Print(n, 16) else if n < 0 then "-" + Print(-n) else Print(n)
  }

  /** All of `s` as digits of the base. */
  function Digits(s: string, base: nat): Option<nat> { if AllDigits(s, base) then Some(Value(s, base)) else None }

  /** Digits after an optional sign, the base being 16 after `0x`, 8 after `0`, and 10 otherwise. */
  function Magnitude(t: string): Option<nat> {
    if |t| > 2 && t[0] == '0' && (t[1] == 'x' || t[1] == 'X') then Digits(t[2..], 16)
    else if t != [] && t[0] == '0' then Digits(t, 8)
    else Digits(t, 10)
  }

  /** `strtol` with base 0, provided all of the text is used. */
  function Number(s: string): Option<int> {
    var minus := s != [] && s[0] == '-';
    var t := if s != [] && (s[0] == '-' || s[0] == '+') then s[1..] else s;
    var n := Magnitude(t);
    if n.None? || (t == [] && s != []) then None
    else
      var v: int := n.value;
      Some(if minus then -v else v)
  }

  // ----- Sequences

  datatype Bounds = Bounds(start: int, step: int, last: int)

  /** The values of `add_seq` from the numbers between the parentheses. */
  function BoundsOf(nums: seq<int>, hex: bool): (b: Option<Bounds>)
    ensures b.Some? ==> Directed(b.value)
  {
    var b :=
      if |nums| == 1 then
        Some(Bounds(if nums[0] < 0 then -1 else 1, if nums[0] < 1 then -1 else 1, nums[0]))
      else if |nums| == 2 then
        Some(Bounds(nums[0], if nums[0] <= nums[1] then 1 else -1, nums[1]))
      else if |nums| == 3 then
        if nums[1] == 0 || (nums[0] < nums[2] && nums[1] < 0) || (nums[0] > nums[2] && nums[1] > 0) then None
        else Some(Bounds(nums[0], nums[1], nums[2]))
      else None;
    if hex && b.Some? && (b.value.start < 0 || b.value.last < 0) then None else b
  }

  /** The step leads from start to end. */
  predicate Directed(b: Bounds) {
    b.step != 0 && (b.start < b.last ==> b.step > 0) && (b.start > b.last ==> b.step < 0)
  }

  /** `n` has passed the end. */
  predicate Passed(n: int, b: Bounds) { (b.step > 0 && n > b.last) || (b.step < 0 && n < b.last) }

  function Abs(n: int): nat { if n < 0 then -n else n }

  /** How many values there are. */
  function Count(b: Bounds): nat
    requires b.step != 0
  {
    Quotient(Abs(b.last - b.start), Abs(b.step)) + 1
  }

  function Values(b: Bounds): seq<int>
    requires b.step != 0
  {
    seq(Count(b), (i: nat) => b.start + i * b.step)
  }

  // ----- Texts

  datatype Arg = Missing | Literal(n: int) | Ref(name: string)

  datatype Part = Chars(text: string) | Use(name: string)

  /** A configuration line: `~SEQ(name, args) rest`, or plain text that may use definitions. */
  datatype Text = Plain(parts: seq<Part>) | Nest(name: string, hex: bool, args: seq<Arg>, rest: Text)

  /** A name that is not defined stays as it is. */
  function Substituted(part: Part, env: Env): string {
    match part
    case Chars(t) => t
    case Use(x) => if x in env then env[x] else "$" + x
  }

  /** Definitions replaced. */
  function Replace(parts: seq<Part>, env: Env): string {
    if parts == [] then "" else Substituted(parts[0], env) + Replace(parts[1..], env)
  }

  function Evaluate(a: Arg, env: Env): Option<int> {
    match a
    case Missing => Some(0)
    case Literal(n) => Some(n)
    case Ref(x) => if x in env then Number(env[x]) else None
  }

  function EvaluateAll(args: seq<Arg>, env: Env): Option<seq<int>> {
    if args == [] then Some([])
    else
      var first, rest := Evaluate(args[0], env), EvaluateAll(args[1..], env);
      if first.None? || rest.None? then None else Some([first.value] + rest.value)
  }

  /** What a `~SEQ` line means where it is met; nothing if it is malformed. */
  function Opened(hex: bool, args: seq<Arg>, env: Env): (b: Option<Bounds>)
    ensures b.Some? ==> Directed(b.value)
  {
    var nums := EvaluateAll(args, env);
    if nums.None? then None else BoundsOf(nums.value, hex)
  }

  // ----- The nested loops

  /** The lines a text gives, the definitions afterwards, and how many values were taken on the way. */
  datatype Result = Result(lines: seq<string>, env: Env, taken: nat)

  ghost function Expand(t: Text, env: Env): Result
    decreases t, 0
  {
    match t
    case Plain(parts) => Result([Replace(parts, env)], env, 0)
    case Nest(x, hex, args, rest) =>
      var b := Opened(hex, args, env);
      if b.None? then Result([], env, 0) else Each(x, hex, Values(b.value), rest, env)
  }

  /** `t` for each value in turn. */
  ghost function Each(x: string, hex: bool, values: seq<int>, t: Text, env: Env): Result
    decreases t, 1 + |values|
  {
    if values == [] then Result([], env, 0)
    else
      var first := Expand(t, env[x := Show(values[0], hex)]);
      var rest := Each(x, hex, values[1..], t, first.env);
      Result(first.lines + rest.lines, rest.env, 1 + first.taken + rest.taken)
  }

  // ----- The stack

  /** `seq_t` */
  datatype Frame = Frame(name: string, hex: bool, bounds: Bounds, text: Text)

  ghost predicate AllDirected(stack: seq<Frame>) { forall i :: 0 <= i < |stack| ==> Directed(stack[i].bounds) }

  /** What is still to come: the frames from the last to the first. */
  ghost function Pending(stack: seq<Frame>, env: Env): Result
    requires AllDirected(stack)
  {
    if stack == [] then Result([], env, 0)
    else
      var f := stack[|stack| - 1];
      var top := Each(f.name, f.hex, Values(f.bounds), f.text, env);
      var rest := Pending(stack[..|stack| - 1], top.env);
      Result(top.lines + rest.lines, rest.env, top.taken + rest.taken)
  }

  /** One result after the other. */
  ghost function Then(a: Result, b: Result): Result { Result(a.lines + b.lines, b.env, a.taken + b.taken) }

  /** What the file still holds. */
  ghost function ExpandAll(input: seq<Text>, env: Env): Result {
    if input == [] then Result([], env, 0)
    else
      var first := Expand(input[0], env);
      Then(Then(Result([], env, 1), first), ExpandAll(input[1..], first.env))
  }

  /** All that is still to be read. */
  ghost function Ahead(stack: seq<Frame>, env: Env, input: seq<Text>): Result
    requires AllDirected(stack)
  {
    var p := Pending(stack, env);
    Then(p, ExpandAll(input, p.env))
  }

  // ----- Taking one value

  lemma Divides(a: nat, b: nat)
    requires b > 0 && a >= b
    ensures Quotient(a, b) == Quotient(a - b, b) + 1
  {
    DivMod(a - b, b);
    QuotientIs(a, b, Quotient(a - b, b) + 1, Remainder(a - b, b));
  }

  function Advanced(b: Bounds): Bounds { b.(start := b.start + b.step) }

  lemma CountStep(b: Bounds)
    requires Directed(b)
    ensures Passed(Advanced(b).start, b) ==> Count(b) == 1
    ensures !Passed(Advanced(b).start, b) ==> Directed(Advanced(b)) && Count(b) == 1 + Count(Advanced(b))
  {
    var gap, step := Abs(b.last - b.start), Abs(b.step);
    if Passed(Advanced(b).start, b) {
      QuotientIs(gap, step, 0, gap);
    } else {
      Divides(gap, step);
    }
  }

  /** The next value, and those that follow unless it was the last. */
  lemma {:induction false} ValuesStep(b: Bounds)
    requires Directed(b)
    ensures Values(b)[0] == b.start
    ensures Values(b)[1..] == if Passed(Advanced(b).start, b) then [] else Values(Advanced(b))
  {
    CountStep(b);
    if !Passed(Advanced(b).start, b) {
      var v, w := Values(b)[1..], Values(Advanced(b));
      forall i | 0 <= i < |w| ensures v[i] == w[i] { assert (i + 1) * b.step == i * b.step + b.step; }
    }
  }

  /** The stack after the value of its last frame has been taken: a frame with no value left is gone already. */
  function Taken(stack: seq<Frame>): seq<Frame>
    requires stack != []
  {
    var f := stack[|stack| - 1];
    stack[..|stack| - 1] + if Passed(Advanced(f.bounds).start, f.bounds) then [] else [f.(bounds := Advanced(f.bounds))]
  }

  ghost function TopOf(f: Frame, env: Env): Result
    requires Directed(f.bounds)
  {
    Each(f.name, f.hex, Values(f.bounds), f.text, env)
  }

  lemma {:induction false} PendingPush(stack: seq<Frame>, f: Frame, env: Env)
    requires AllDirected(stack) && Directed(f.bounds)
    ensures AllDirected(stack + [f])
      && Pending(stack + [f], env) == Then(TopOf(f, env), Pending(stack, TopOf(f, env).env))
  {
    assert (stack + [f])[..|stack|] == stack;
  }

  lemma {:induction false} TopStep(f: Frame, env: Env)
    requires Directed(f.bounds)
    ensures var first := Expand(f.text, env[f.name := Show(f.bounds.start, f.hex)]);
      var b := Advanced(f.bounds);
      var more := if Passed(b.start, b) then Result([], first.env, 0)
        else Each(f.name, f.hex, Values(b), f.text, first.env);
      TopOf(f, env) == Then(Result([], env, 1), Then(first, more))
  {
    ValuesStep(f.bounds);
    var vs := Values(f.bounds);
    assert vs != [] by { CountStep(f.bounds); }
    var first := Expand(f.text, env[f.name := Show(f.bounds.start, f.hex)]);
    var rest := Each(f.name, f.hex, vs[1..], f.text, first.env);
    assert TopOf(f, env) == Result(first.lines + rest.lines, rest.env, 1 + first.taken + rest.taken);
    assert [] + (first.lines + rest.lines) == first.lines + rest.lines;
  }

  lemma ThenAssoc(a: Result, b: Result, c: Result)
    ensures Then(a, Then(b, c)) == Then(Then(a, b), c)
  {}

  lemma ThenNothing(a: Result, env: Env)
    ensures Then(Result([], env, 0), a) == a
  {}

  /** Taking a value from the last frame: its text comes next, then whatever is left. */
  lemma {:induction false} TakeOne(stack: seq<Frame>, env: Env)
    requires AllDirected(stack) && stack != []
    ensures AllDirected(Taken(stack))
    ensures var f := stack[|stack| - 1];
      var first := Expand(f.text, env[f.name := Show(f.bounds.start, f.hex)]);
      Pending(stack, env) == Then(Result([], env, 1), Then(first, Pending(Taken(stack), first.env)))
  {
    var f, below := stack[|stack| - 1], stack[..|stack| - 1];
    var first, b := Expand(f.text, env[f.name := Show(f.bounds.start, f.hex)]), Advanced(f.bounds);
    var one := Result([], env, 1);
    CountStep(f.bounds);
    TopStep(f, env);
    assert stack == below + [f];
    PendingPush(below, f, env);
    if Passed(b.start, b) {
      assert Taken(stack) == below;
      var none := Result([], first.env, 0);
      assert Then(first, none) == first.(taken := first.taken);
      ThenAssoc(one, first, Pending(below, first.env));
    } else {
      var f' := f.(bounds := b);
      PendingPush(below, f', first.env);
      var again := TopOf(f', first.env);
      ThenAssoc(first, again, Pending(below, again.env));
      ThenAssoc(one, Then(first, again), Pending(below, again.env));
    }
  }

  // ----- One round of the loop in `read_line`

  /** Text `t` comes next, in front of what the stack and the file hold. */
  ghost function Facing(t: Text, stack: seq<Frame>, env: Env, input: seq<Text>): Result
    requires AllDirected(stack)
  {
    var first := Expand(t, env);
    Then(first, Ahead(stack, first.env, input))
  }

  /** The text comes from the last sequence, if there is one. */
  lemma {:induction false} FromStack(stack: seq<Frame>, env: Env, input: seq<Text>)
    requires AllDirected(stack) && stack != []
    ensures AllDirected(Taken(stack))
    ensures var f := stack[|stack| - 1];
      Ahead(stack, env, input) ==
      Then(Result([], env, 1), Facing(f.text, Taken(stack), env[f.name := Show(f.bounds.start, f.hex)], input))
  {
    TakeOne(stack, env);
    var f := stack[|stack| - 1];
    var first := Expand(f.text, env[f.name := Show(f.bounds.start, f.hex)]);
    var rest := Pending(Taken(stack), first.env);
    var file := ExpandAll(input, rest.env);
    ThenAssoc(first, rest, file);
    ThenAssoc(Result([], env, 1), Then(first, rest), file);
  }

  /** Otherwise it comes from the file. */
  lemma {:induction false} FromFile(env: Env, input: seq<Text>)
    requires input != []
    ensures Ahead([], env, input) == Then(Result([], env, 1), Facing(input[0], [], env, input[1..]))
  {
    var first := Expand(input[0], env);
    var file := ExpandAll(input[1..], first.env);
    ThenNothing(ExpandAll(input, env), env);
    ThenNothing(file, first.env);
    ThenAssoc(Result([], env, 1), first, file);
  }

  /** A `~SEQ` is put on the stack, or dropped if it is malformed. */
  lemma {:induction false} Push(t: Text, stack: seq<Frame>, env: Env, input: seq<Text>)
    requires AllDirected(stack) && t.Nest?
    ensures var b := Opened(t.hex, t.args, env);
      if b.None? then Facing(t, stack, env, input) == Ahead(stack, env, input)
      else
        && AllDirected(stack + [Frame(t.name, t.hex, b.value, t.rest)])
        && Facing(t, stack, env, input) == Ahead(stack + [Frame(t.name, t.hex, b.value, t.rest)], env, input)
  {
    var b := Opened(t.hex, t.args, env);
    if b.None? {
      ThenNothing(Ahead(stack, env, input), env);
    } else {
      var f := Frame(t.name, t.hex, b.value, t.rest);
      PendingPush(stack, f, env);
      var top := TopOf(f, env);
      var rest := Pending(stack, top.env);
      ThenAssoc(top, rest, ExpandAll(input, rest.env));
    }
  }

  /** The state of the parser: open sequences, definitions and the rest of the file. */
  class Reader {
    var seqs: seq<Frame>
    var defs: Env
    var input: seq<Text>

    constructor (file: seq<Text>, env: Env)
      ensures AllDirected(seqs) && Left() == Then(Result([], env, 0), ExpandAll(file, env))
    {
      seqs, defs, input := [], env, file;
    }

    ghost function Left(): Result
      requires AllDirected(seqs)
      reads this
    {
      Ahead(seqs, defs, input)
    }

    /** `add_seq` */
    method AddSeq(t: Text)
      requires AllDirected(seqs) && t.Nest?
      modifies this`seqs
      ensures AllDirected(seqs) && Left() == Facing(t, old(seqs), defs, input)
    {
      Push(t, seqs, defs, input);
      var b := Opened(t.hex, t.args, defs);
      if b.Some? {
        seqs := seqs + [Frame(t.name, t.hex, b.value, t.rest)];
      }
    }

    /** The text to look at next. */
    method NextText() returns (t: Text)
      requires AllDirected(seqs) && (seqs != [] || input != [])
      modifies this
      ensures AllDirected(seqs) && exists env :: old(Left()) == Then(Result([], env, 1), Facing(t, seqs, defs, input))
    {
      if seqs != [] {
        FromStack(seqs, defs, input);
        var f := seqs[|seqs| - 1];
        t := f.text;
        defs := defs[f.name := Show(f.bounds.start, f.hex)];
        seqs := Taken(seqs);
      } else {
        FromFile(defs, input);
        t := input[0];
        input := input[1..];
      }
    }

    /** One text taken up: a line to return, or a sequence to go through. */
    method TakeText() returns (line: Option<string>)
      requires AllDirected(seqs) && (seqs != [] || input != [])
      modifies this
      ensures AllDirected(seqs) && Left().env == old(Left()).env && Left().taken < old(Left()).taken
      ensures old(Left()).lines == if line.None? then Left().lines else [line.value] + Left().lines
    {
      var t := NextText();
      line := None;
      if t.Plain? {
        line := Some(Replace(t.parts, defs));
      } else {
        AddSeq(t);
      }
    }

    /** `read_line`: each call gives the next line of the nested loops, until there is none. */
    method ReadLine() returns (line: Option<string>)
      requires AllDirected(seqs)
      modifies this
      ensures AllDirected(seqs) && Left().env == old(Left()).env
      ensures old(Left()).lines == if line.None? then [] else [line.value] + Left().lines
    {
      while seqs != [] || input != []
        invariant AllDirected(seqs) && Left().lines == old(Left()).lines && Left().env == old(Left()).env
        decreases Left().taken
      {
        line := TakeText();
        if line.Some? {
          return;
        }
      }
      line := None;
    }
  }

  // ----- What the values are

  /** The values are spaced by the step, all lie within the bounds, and the next one would not. */
  lemma {:induction false} ValuesExact(b: Bounds)
    requires Directed(b)
    ensures |Values(b)| == Quotient(Abs(b.last - b.start), Abs(b.step)) + 1
    ensures forall i :: 0 <= i < |Values(b)| ==> Values(b)[i] == b.start + i * b.step && !Passed(Values(b)[i], b)
    ensures Passed(b.start + |Values(b)| * b.step, b)
    decreases Abs(b.last - b.start)
  {
    CountStep(b);
    ValuesStep(b);
    var b' := Advanced(b);
    if !Passed(b'.start, b) {
      ValuesExact(b');
      forall i | 0 <= i < |Values(b)| ensures !Passed(Values(b)[i], b) {
        if i > 0 { assert Values(b)[i] == Values(b)[1..][i - 1] == Values(b')[i - 1]; }
      }
      assert b.start + |Values(b)| * b.step == b'.start + |Values(b')| * b.step;
    } else {
      assert |Values(b)| == 1;
    }
  }

  // ----- What the numbers mean

  lemma UnitCount(start: int, step: int, last: int)
    requires (step == 1 && start <= last) || (step == -1 && last <= start)
    ensures Count(Bounds(start, step, last)) == Abs(last - start) + 1
  {
    QuotientIs(Abs(last - start), 1, Abs(last - start), 0);
  }

  /** One number counts from one up to it, or from minus one down to it; zero gives one and zero. */
  lemma {:induction false} OneNumber(n: int)
    ensures var b := BoundsOf([n], false);
      && b.Some?
      && (n >= 1 ==> Values(b.value) == seq(n, (i: nat) => i + 1))
      && (n <= -1 ==> Values(b.value) == seq(-n, (i: nat) => -1 - i))
      && (n == 0 ==> Values(b.value) == [1, 0])
  {
    var b := BoundsOf([n], false).value;
    UnitCount(b.start, b.step, b.last);
  }

  /** Two numbers count from the first to the second, whichever is greater, both included. */
  lemma {:induction false} TwoNumbers(a: int, c: int)
    ensures var b := BoundsOf([a, c], false);
      && b.Some? && |Values(b.value)| == Abs(c - a) + 1
      && Values(b.value)[0] == a && Values(b.value)[Abs(c - a)] == c
      && forall i :: 0 <= i < Abs(c - a) ==> Abs(Values(b.value)[i + 1] - Values(b.value)[i]) == 1
  {
    var b := BoundsOf([a, c], false).value;
    UnitCount(b.start, b.step, b.last);
  }

  /** Three numbers are start, step and end; they are refused exactly if the step is zero or leads away from the end. */
  lemma {:induction false} ThreeNumbers(start: int, step: int, last: int)
    ensures var b := BoundsOf([start, step, last], false);
      && (b.Some? <==> step != 0 && (start == last || (start < last <==> step > 0)))
      && (b.Some? ==> b.value == Bounds(start, step, last))
  {}

  // ----- Bounds that depend on an outer sequence

  lemma {:induction false} FirstNumeral(n: nat, base: nat)
    requires base == 10 || base == 16
    ensures var c := Print(n, base)[0]; c != '-' && c != '+' && (n > 0 ==> c != '0')
  {
    if n < base { DigitRoundTrip(n); } else { FirstNumeral(n / base, base); }
  }

  lemma ZeroNumber(base: nat, t: string)
    requires (base == 10 || base == 16) && t == Print(0, base)
    ensures Number(t) == Some(0)
  {
    assert t == ['0'];
    One('0', 8);
  }

  lemma Signed(t: string, minus: string)
    requires t != [] && t[0] != '-' && t[0] != '+' && minus == ['-'] && Magnitude(t).Some?
    ensures var v: int := Magnitude(t).value; Number(t) == Some(v) && Number(minus + t) == Some(-v)
  {
    assert (minus + t)[1..] == t && (minus + t)[0] == '-';
  }

  lemma {:induction false} PrintedNumber(n: nat)
    requires n > 0
    ensures var t := Print(n); Magnitude(t) == Some(n) && t[0] != '-' && t[0] != '+'
  {
    PrintValue(n);
    FirstNumeral(n, 10);
  }

  lemma {:induction false} PositiveNumber(n: int, t: string)
    requires n > 0 && t == Print(n)
    ensures Number(t) == Some(n)
  {
    PrintedNumber(n);
    Signed(t, "-");
  }

  lemma {:induction false} NegativeNumber(n: int, minus: string, t: string)
    requires n < 0 && minus == ['-'] && t == minus + Print(-n)
    ensures Number(t) == Some(n)
  {
    PrintedNumber(-n);
    Signed(Print(-n), minus);
  }

  /** The number of an outer sequence is read back as it is, so inner bounds may depend on it. */
  lemma {:induction false} NumberRoundTrip(n: int)
    ensures Number(Show(n, false)) == Some(n)
  {
    var t := Show(n, false);
    if n < 0 { NegativeNumber(n, "-", t); } else if n == 0 { ZeroNumber(10, t); } else { PositiveNumber(n, t); }
  }

  /** Hexadecimal text read as decimal is something else, from ten on. */
  lemma {:induction false} HexAsDecimal(n: nat)
    ensures var d := Digits(Print(n, 16), 10); if n < 10 then d == Some(n) else d.None? || d.value < n
  {
    DigitRoundTrip(n % 16);
    if n < 16 {
      One(DigitChar(n), 10);
    } else {
      HexAsDecimal(n / 16);
      Snoc(Print(n / 16, 16), DigitChar(n % 16), 10);
    }
  }

  /** The number of an outer `~SEQx` is printed without a prefix: it is read back as it is only up to nine. */
  lemma {:induction false} HexBound(n: nat)
    ensures Number(Show(n, true)) == Some(n) <==> n < 10
  {
    FirstNumeral(n, 16);
    HexAsDecimal(n);
    if n == 0 { ZeroNumber(16, Show(n, true)); }
  }

  /** Sixteen is printed as 10, and read as ten. */
  lemma HexSixteen()
    ensures Show(16, true) == "10" && Number(Show(16, true)) == Some(10)
  {
    var one := ['1'];
    assert Print(16, 16) == one + ['0'];
    One('1', 10);
    Snoc(one, '0', 10);
  }

  // ----- What a line says

  /** A hexadecimal number after `0x` is read as it is, and an octal one after `0`; a plus sign changes nothing. */
  lemma {:induction false} NumberForms(n: nat, x: string, t: string)
    requires (x == ['0', 'x'] || x == ['0', 'X']) && t != [] && t[0] != '-' && t[0] != '+'
    ensures Number(x + Print(n, 16)) == Some(n)
    ensures Number(['+'] + t) == Number(t)
    ensures t[0] == '0' && AllDigits(t, 8) ==> Number(t) == Some(Value(t, 8))
  {
    var h := x + Print(n, 16);
    assert h[0] == '0' && h[1] == x[1] && h[2..] == Print(n, 16);
    PrintValue(n, 16);
    assert Magnitude(h) == Some(n);
    assert (['+'] + t)[1..] == t;
    if t[0] == '0' && AllDigits(t, 8) { assert |t| > 1 ==> CharDigit(t[1]) < 8; }
  }

  /** An argument is its number; a name stands for the number it was printed from; a missing one is zero. */
  lemma {:induction false} EvaluateExact(env: Env, x: string, n: int)
    ensures Evaluate(Literal(n), env) == Some(n) && Evaluate(Missing, env) == Some(0)
    ensures x in env && env[x] == Show(n, false) ==> Evaluate(Ref(x), env) == Some(n)
    ensures x !in env ==> Evaluate(Ref(x), env) == None
  {
    NumberRoundTrip(n);
  }

  /** The numbers are those of the arguments, one for one and in their order. */
  lemma {:induction false} EvaluateAllExact(args: seq<Arg>, env: Env)
    ensures var r := EvaluateAll(args, env);
      && (r.Some? <==> forall k :: 0 <= k < |args| ==> Evaluate(args[k], env).Some?)
      && (r.Some? ==> |r.value| == |args| && forall k :: 0 <= k < |args| ==> Evaluate(args[k], env) == Some(r.value[k]))
  {
    if args != [] {
      var rest := args[1..];
      EvaluateAllExact(rest, env);
      assert forall k :: 1 <= k < |args| ==> args[k] == rest[k - 1];
      if forall k :: 0 <= k < |args| ==> Evaluate(args[k], env).Some? {
        assert Evaluate(args[0], env).Some?;
        assert forall k :: 0 <= k < |rest| ==> rest[k] == args[k + 1];
      }
    }
  }

  lemma Assoc(a: string, b: string, c: string)
    ensures a + (b + c) == (a + b) + c
  {}

  lemma {:induction false} ReplaceConcat(p: seq<Part>, q: seq<Part>, env: Env)
    ensures Replace(p + q, env) == Replace(p, env) + Replace(q, env)
  {
    if p == [] {
      assert p + q == q;
    } else {
      ReplaceConcat(p[1..], q, env);
      assert (p + q)[0] == p[0] && (p + q)[1..] == p[1..] + q;
      Assoc(Substituted(p[0], env), Replace(p[1..], env), Replace(q, env));
    }
  }

  /** A use of a name becomes its definition, or stays; other text stays. */
  lemma ReplaceOne(x: string, t: string, env: Env)
    ensures Replace([Chars(t)], env) == t
    ensures x in env ==> Replace([Use(x)], env) == env[x]
    ensures x !in env ==> Replace([Use(x)], env) == ['$'] + x
  {
    assert [Chars(t)][1..] == [] && [Use(x)][1..] == [] && Replace([], env) == "";
  }

  lemma EachPlainStep(x: string, hex: bool, values: seq<int>, parts: seq<Part>, env: Env)
    requires values != []
    ensures var env1 := env[x := Show(values[0], hex)];
      var rest := Each(x, hex, values[1..], Plain(parts), env1);
      Each(x, hex, values, Plain(parts), env) == Result([Replace(parts, env1)] + rest.lines, rest.env, 1 + rest.taken)
  {
    assert Expand(Plain(parts), env[x := Show(values[0], hex)]).taken == 0;
  }

  /** One line for each value, in order, with the value put in. */
  lemma {:induction false} EachPlain(x: string, hex: bool, values: seq<int>, parts: seq<Part>, env: Env)
    ensures var r := Each(x, hex, values, Plain(parts), env);
      && |r.lines| == |values|
      && (forall k :: 0 <= k < |values| ==> r.lines[k] == Replace(parts, env[x := Show(values[k], hex)]))
      && r.env == if values == [] then env else env[x := Show(values[|values| - 1], hex)]
  {
    if values != [] {
      var env1, rest := env[x := Show(values[0], hex)], values[1..];
      EachPlainStep(x, hex, values, parts, env);
      EachPlain(x, hex, rest, parts, env1);
      forall v ensures env1[x := Show(v, hex)] == env[x := Show(v, hex)] {}
    }
  }

  lemma {:induction false} TwoLiterals(a: int, c: int, env: Env)
    requires a <= c
    ensures var b := Opened(false, [Literal(a), Literal(c)], env);
      && b.Some? && |Values(b.value)| == c - a + 1
      && forall k :: 0 <= k <= c - a ==> Values(b.value)[k] == a + k
  {
    var args := [Literal(a), Literal(c)];
    EvaluateAllExact(args, env);
    var nums := EvaluateAll(args, env);
    assert nums.Some? && nums.value == [a, c];
    UnitCount(a, 1, c);
  }

  lemma PrefixUse(u: string, x: string, v: string, env: Env)
    ensures Replace([Chars(u), Use(x)], env[x := v]) == u + v
  {
    assert [Chars(u), Use(x)] == [Chars(u)] + [Use(x)];
    ReplaceConcat([Chars(u)], [Use(x)], env[x := v]);
    ReplaceOne(x, u, env[x := v]);
  }

  /** `~SEQ(x, a, c) u$x` gives `u` followed by a, a + 1, ..., c, in that order. */
  lemma {:induction false} CountsUp(x: string, a: int, c: int, u: string, env: Env)
    requires a <= c
    ensures var r := Expand(Nest(x, false, [Literal(a), Literal(c)], Plain([Chars(u), Use(x)])), env);
      |r.lines| == c - a + 1 && forall k :: 0 <= k <= c - a ==> r.lines[k] == u + Show(a + k, false)
  {
    var parts := [Chars(u), Use(x)];
    TwoLiterals(a, c, env);
    var vs := Values(Opened(false, [Literal(a), Literal(c)], env).value);
    EachPlain(x, false, vs, parts, env);
    forall k | 0 <= k <= c - a ensures Replace(parts, env[x := Show(vs[k], false)]) == u + Show(a + k, false) {
      PrefixUse(u, x, Show(vs[k], false), env);
    }
  }

  /** The lines of a file are expanded one after the other, each with the definitions left by those before it. */
  lemma {:induction false} FileInOrder(a: seq<Text>, b: seq<Text>, env: Env)
    ensures ExpandAll(a + b, env) == Then(ExpandAll(a, env), ExpandAll(b, ExpandAll(a, env).env))
  {
    if a == [] {
      assert a + b == b;
      ThenNothing(ExpandAll(b, env), env);
    } else {
      var first := Expand(a[0], env);
      var one := Then(Result([], env, 1), first);
      assert (a + b)[0] == a[0] && (a + b)[1..] == a[1..] + b;
      FileInOrder(a[1..], b, first.env);
      ThenAssoc(one, ExpandAll(a[1..], first.env), ExpandAll(b, ExpandAll(a[1..], first.env).env));
    }
  }

  lemma OneLine(t: Text, env: Env)
    ensures ExpandAll([t], env).lines == Expand(t, env).lines && ExpandAll([t], env).env == Expand(t, env).env
  {
    assert [t][1..] == [];
  }

  // ----- Two loops

  /** The definitions agree but for `x` and `y`. */
  ghost predicate Agree(a: Env, b: Env, x: string, y: string) {
    forall n :: n != x && n != y ==> (n in a <==> n in b) && (n in a && n in b ==> a[n] == b[n])
  }

  /** The lines of an inner sequence over `y`, the outer variable `x` being `v`. */
  ghost function Row(x: string, hex: bool, v: int, y: string, hex': bool, args: seq<Arg>, parts: seq<Part>, env: Env)
    : seq<string>
  {
    var env1 := env[x := Show(v, hex)];
    var b := Opened(hex', args, env1);
    if b.None? then []
    else
      var vs := Values(b.value);
      seq(|vs|, j requires 0 <= j < |vs| => Replace(parts, env1[y := Show(vs[j], hex')]))
  }

  /** One row for each value of the outer variable. */
  ghost function Rows(x: string, hex: bool, values: seq<int>, y: string, hex': bool, args: seq<Arg>,
                      parts: seq<Part>, env: Env): seq<string>
  {
    if values == [] then []
    else Row(x, hex, values[0], y, hex', args, parts, env) + Rows(x, hex, values[1..], y, hex', args, parts, env)
  }

  lemma {:induction false} SameNumbers(args: seq<Arg>, y: string, a: Env, b: Env)
    requires Ref(y) !in args && forall n :: n != y ==> (n in a <==> n in b) && (n in a && n in b ==> a[n] == b[n])
    ensures EvaluateAll(args, a) == EvaluateAll(args, b)
  {
    if args != [] {
      assert args[0] in args && forall r :: r in args[1..] ==> r in args;
      SameNumbers(args[1..], y, a, b);
    }
  }

  lemma SameRow(x: string, hex: bool, v: int, y: string, hex': bool, args: seq<Arg>, parts: seq<Part>, a: Env, b: Env)
    requires Ref(y) !in args && Agree(a, b, x, y)
    ensures Row(x, hex, v, y, hex', args, parts, a) == Row(x, hex, v, y, hex', args, parts, b)
  {
    var a1, b1 := a[x := Show(v, hex)], b[x := Show(v, hex)];
    SameNumbers(args, y, a1, b1);
    forall w ensures a1[y := Show(w, hex')] == b1[y := Show(w, hex')] {
      SameButTwo(a, b, x, y, Show(v, hex), Show(w, hex'));
    }
  }

  lemma SameButTwo(a: Env, b: Env, x: string, y: string, u: string, t: string)
    requires Agree(a, b, x, y)
    ensures a[x := u][y := t] == b[x := u][y := t]
  {}

  /** What one round of the outer loop gives. */
  lemma {:induction false} InnerLoop(x: string, hex: bool, v: int, y: string, hex': bool, args: seq<Arg>,
                                     parts: seq<Part>, env: Env)
    ensures var r := Expand(Nest(y, hex', args, Plain(parts)), env[x := Show(v, hex)]);
      r.lines == Row(x, hex, v, y, hex', args, parts, env) && Agree(env, r.env, x, y)
  {
    var env1 := env[x := Show(v, hex)];
    var b := Opened(hex', args, env1);
    if b.Some? { EachPlain(y, hex', Values(b.value), parts, env1); }
  }

  /** A sequence in a sequence is two loops: the inner one runs through for each value of the outer one. */
  lemma {:induction false} NestedLoops(x: string, hex: bool, values: seq<int>, y: string, hex': bool, args: seq<Arg>,
                                       parts: seq<Part>, env: Env, env': Env)
    requires Ref(y) !in args && Agree(env, env', x, y)
    ensures Each(x, hex, values, Nest(y, hex', args, Plain(parts)), env').lines ==
      Rows(x, hex, values, y, hex', args, parts, env)
  {
    if values != [] {
      var t := Nest(y, hex', args, Plain(parts));
      var first := Expand(t, env'[x := Show(values[0], hex)]);
      InnerLoop(x, hex, values[0], y, hex', args, parts, env');
      SameRow(x, hex, values[0], y, hex', args, parts, env, env');
      NestedLoops(x, hex, values[1..], y, hex', args, parts, env, first.env);
    }
  }

  // ----- Hexadecimal bounds

  /** Bounds of `~SEQx` must not be negative; otherwise they are those of `~SEQ`. */
  lemma {:induction false} HexBounds(a: int, b: int, c: int)
    ensures BoundsOf([a], true) == if a < 0 then None else BoundsOf([a], false)
    ensures BoundsOf([a, b], true) == if a < 0 || b < 0 then None else BoundsOf([a, b], false)
    ensures BoundsOf([a, b, c], true) == if a < 0 || c < 0 then None else BoundsOf([a, b, c], false)
  {}

  /** No more than three numbers, and one at least. */
  lemma NumbersTaken(nums: seq<int>, hex: bool)
    ensures nums == [] || |nums| > 3 ==> BoundsOf(nums, hex) == None
  {}

  /** A number of `~SEQx` is printed in base sixteen. */
  lemma {:induction false} ShowHex(n: nat)
    ensures Digits(Show(n, true), 16) == Some(n)
  {
    PrintValue(n, 16);
  }
}
