/**
 The argument matcher of the mapping DSL (backend/app/training/dsl.py).

 The source walks the patterns once and never reconsiders an optional it has taken.  `Outcomes` is
 the reference: every capture map some backtracking matcher could return.  The greedy walk is sound
 for it always, and agrees with it on every argument list exactly when no optional's value is
 accepted by the mandatory pattern that follows it.
 */
module ArgumentPatterns {
  import opened Common

  datatype ValueType = StringType | IntegerType | NumberType | BooleanType

  /** `Number` carries the text that `float` read. */
  datatype Captured = Text(text: string) | Integer(number: int) | Number(literal: string) | Truth(flag: bool)

  type Captures = map<string, Captured>

  datatype Pattern =
    | Literal(value: string)
    | Capture(name: string, valueType: ValueType)
    | Optional(value: string)
    | OneOf(options: seq<string>)

  /** The host language's `int` and `float` readers. */
  datatype Readers = Readers(integer: string -> Option<int>, number: string -> bool) {
    ghost predicate Valid() {
      integer("0").Some? && number("0")
    }
  }

  /** `_typed` on a string argument. */
  function Typed(readers: Readers, value: string, valueType: ValueType): Option<Captured> {
    match valueType
    case StringType => Some(Text(value))
    case IntegerType => (match readers.integer(value) case Some(n) => Some(Integer(n)) case None => None)
    case NumberType => if readers.number(value) then Some(Number(value)) else None
    case BooleanType => if value in {"true", "false"} then Some(Truth(value == "true")) else None
  }

  /** The shape the model validator admits. */
  predicate WellFormed(p: Pattern) {
    p.OneOf? ==> p.options != []
  }

  /** A mandatory pattern's reading of one argument: the captures it binds, or no match. */
  function Read(readers: Readers, p: Pattern, argument: string): Option<Captures>
    requires !p.Optional?
  {
    match p
    case Literal(value) => if argument == value then Some(map[]) else None
    case OneOf(options) => if argument in options then Some(map[]) else None
    case Capture(name, valueType) =>
      match Typed(readers, argument, valueType)
      case Some(v) => Some(map[name := v])
      case None => None
  }

  /** All results of a matcher free to take or skip each optional; later captures overwrite earlier ones. */
  ghost function Outcomes(readers: Readers, ps: seq<Pattern>, arguments: seq<string>): set<Captures> {
    if ps == [] then {map[]}
    else if ps[0].Optional? then
      Outcomes(readers, ps[1..], arguments)
      + (if arguments != [] && arguments[0] == ps[0].value then Outcomes(readers, ps[1..], arguments[1..]) else {})
    else if arguments == [] || Read(readers, ps[0], arguments[0]).None? then {}
    else
      set rest | rest in Outcomes(readers, ps[1..], arguments[1..]) :: Read(readers, ps[0], arguments[0]).value + rest
  }

  /** The one-pass walk as a function of what is left. */
  function Greedy(readers: Readers, ps: seq<Pattern>, arguments: seq<string>): Option<Captures> {
    if ps == [] then Some(map[])
    else if ps[0].Optional? then
      Greedy(readers, ps[1..], if arguments != [] && arguments[0] == ps[0].value then arguments[1..] else arguments)
    else if arguments == [] then None
    else
      match Read(readers, ps[0], arguments[0])
      case None => None
      case Some(bound) =>
        match Greedy(readers, ps[1..], arguments[1..])
        case None => None
        case Some(rest) => Some(bound + rest)
  }

  /** The source's loop. */
  method MatchArguments(readers: Readers, patterns: seq<Pattern>, arguments: seq<string>)
    returns (matched: bool, captures: Captures)
    ensures matched == Greedy(readers, patterns, arguments).Some?
    ensures captures == if matched then Greedy(readers, patterns, arguments).value else map[]
    ensures matched ==> captures in Outcomes(readers, patterns, arguments)
    ensures Unambiguous(readers, patterns) && !matched ==> Outcomes(readers, patterns, arguments) == {}
  {
    GreedyIsSound(readers, patterns, arguments);
    if Unambiguous(readers, patterns) {
      GreedyIsExact(readers, patterns, arguments);
    }
    captures := map[];
    var index := 0;
    assert patterns[0..] == patterns && arguments[0..] == arguments;
    assert forall rest: Captures :: captures + rest == rest;
    for i := 0 to |patterns|
      invariant 0 <= index <= |arguments|
      invariant Greedy(readers, patterns, arguments) ==
                match Greedy(readers, patterns[i..], arguments[index..])
                case None => None
                case Some(rest) => Some(captures + rest)
    {
      var pattern := patterns[i];
      assert patterns[i..][1..] == patterns[i + 1..];
      if pattern.Optional? {
        if index < |arguments| && arguments[index] == pattern.value {
          assert arguments[index..][1..] == arguments[index + 1..];
          index := index + 1;
        }
        continue;
      }
      if index >= |arguments| {
        return false, map[];
      }
      var bound := Read(readers, pattern, arguments[index]);
      if bound.None? {
        return false, map[];
      }
      assert arguments[index..][1..] == arguments[index + 1..];
      ghost var rest := Greedy(readers, patterns[i + 1..], arguments[index + 1..]);
      if rest.Some? {
        assert captures + (bound.value + rest.value) == (captures + bound.value) + rest.value;
      }
      captures := captures + bound.value;
      index := index + 1;
    }
    assert captures + map[] == captures;
    matched := true;
  }

  /** Whatever the walk returns, a backtracking matcher could have returned. */
  lemma {:induction false} GreedyIsSound(readers: Readers, ps: seq<Pattern>, arguments: seq<string>)
    ensures var r := Greedy(readers, ps, arguments); r.Some? ==> r.value in Outcomes(readers, ps, arguments)
  {
    if ps != [] {
      GreedyIsSound(readers, ps[1..], arguments);
      if arguments != [] {
        GreedyIsSound(readers, ps[1..], arguments[1..]);
      }
    }
  }

  function NextMandatory(ps: seq<Pattern>): Option<Pattern> {
    if ps == [] then None else if ps[0].Optional? then NextMandatory(ps[1..]) else Some(ps[0])
  }

  ghost predicate AcceptedNext(readers: Readers, ps: seq<Pattern>, value: string) {
    var next := NextMandatory(ps);
    next.Some? && !next.value.Optional? && Read(readers, next.value, value).Some?
  }

  /** No optional's value is accepted by the mandatory pattern after it. */
  ghost predicate Unambiguous(readers: Readers, ps: seq<Pattern>) {
    forall i :: 0 <= i < |ps| && ps[i].Optional? ==> !AcceptedNext(readers, ps[i + 1..], ps[i].value)
  }

  /** An argument that the next mandatory pattern refuses is never needed by what follows. */
  lemma {:induction false} SkippingLosesNothing(readers: Readers, ps: seq<Pattern>, arguments: seq<string>)
    requires arguments != [] && !AcceptedNext(readers, ps, arguments[0])
    ensures Outcomes(readers, ps, arguments) <= Outcomes(readers, ps, arguments[1..])
  {
    if ps != [] && ps[0].Optional? {
      SkippingLosesNothing(readers, ps[1..], arguments);
    }
  }

  /** On unambiguous patterns the walk returns the only result there is, or there is none. */
  lemma {:induction false} GreedyIsExact(readers: Readers, ps: seq<Pattern>, arguments: seq<string>)
    requires Unambiguous(readers, ps)
    ensures Outcomes(readers, ps, arguments) ==
            match Greedy(readers, ps, arguments) case None => {} case Some(captures) => {captures}
  {
    if ps != [] {
      assert Unambiguous(readers, ps[1..]) by {
        forall i | 0 <= i < |ps[1..]| && ps[1..][i].Optional?
          ensures !AcceptedNext(readers, ps[1..][i + 1..], ps[1..][i].value)
        {
          assert ps[1..][i + 1..] == ps[i + 1 + 1..];
        }
      }
      GreedyIsExact(readers, ps[1..], arguments);
      if arguments != [] {
        GreedyIsExact(readers, ps[1..], arguments[1..]);
        if ps[0].Optional? && arguments[0] == ps[0].value {
          assert ps[0 + 1..] == ps[1..];
          SkippingLosesNothing(readers, ps[1..], arguments);
        }
      }
    }
  }

  function Mandatory(ps: seq<Pattern>): nat {
    if ps == [] then 0 else (if ps[0].Optional? then 0 else 1) + Mandatory(ps[1..])
  }

  function Sample(p: Pattern): string
    requires !p.Optional? && WellFormed(p)
  {
    match p
    case Literal(value) => value
    case OneOf(options) => options[0]
    case Capture(_, valueType) => if valueType == BooleanType then "true" else "0"
  }

  lemma {:induction false} TooFewArguments(readers: Readers, ps: seq<Pattern>, arguments: seq<string>)
    requires |arguments| < Mandatory(ps)
    ensures Greedy(readers, ps, arguments).None?
  {
    if ps[0].Optional? {
      TooFewArguments(readers, ps[1..], arguments);
      if arguments != [] {
        TooFewArguments(readers, ps[1..], arguments[1..]);
      }
    } else if arguments != [] {
      TooFewArguments(readers, ps[1..], arguments[1..]);
    }
  }

  /** One argument per mandatory pattern, optional `at` shadowing the next one. */
  lemma {:induction false} Trap(readers: Readers, ps: seq<Pattern>, at: nat) returns (arguments: seq<string>)
    requires readers.Valid() && forall p :: p in ps ==> WellFormed(p)
    requires at < |ps| && ps[at].Optional? && AcceptedNext(readers, ps[at + 1..], ps[at].value)
    ensures |arguments| == Mandatory(ps)
    ensures Outcomes(readers, ps, arguments) != {} && Greedy(readers, ps, arguments).None?
  {
    if at == 0 {
      arguments := Skipping(readers, ps[1..], Some(ps[0].value));
      assert arguments[0] == ps[0].value;
      TooFewArguments(readers, ps[1..], arguments[1..]);
    } else {
      assert ps[1..][at - 1 + 1..] == ps[at + 1..];
      var rest := Trap(readers, ps[1..], at - 1);
      var tail :| tail in Outcomes(readers, ps[1..], rest);
      if ps[0].Optional? {
        arguments := rest;
        if rest != [] {
          TooFewArguments(readers, ps[1..], rest[1..]);
        }
      } else {
        arguments := [Sample(ps[0])] + rest;
        assert arguments[1..] == rest;
        assert Read(readers, ps[0], arguments[0]).value + tail in Outcomes(readers, ps, arguments);
      }
    }
  }

  /** Arguments accepted with every optional skipped, the first of them as given. */
  lemma {:induction false} Skipping(readers: Readers, ps: seq<Pattern>, first: Option<string>)
    returns (arguments: seq<string>)
    requires readers.Valid() && forall p :: p in ps ==> WellFormed(p)
    requires first.Some? ==> AcceptedNext(readers, ps, first.value)
    ensures |arguments| == Mandatory(ps) && Outcomes(readers, ps, arguments) != {}
    ensures first.Some? ==> arguments != [] && arguments[0] == first.value
  {
    if ps == [] {
      arguments := [];
      assert map[] in Outcomes(readers, ps, arguments);
    } else if ps[0].Optional? {
      arguments := Skipping(readers, ps[1..], first);
      var tail :| tail in Outcomes(readers, ps[1..], arguments);
      assert tail in Outcomes(readers, ps, arguments);
    } else {
      var rest := Skipping(readers, ps[1..], None);
      arguments := [if first.Some? then first.value else Sample(ps[0])] + rest;
      assert arguments[1..] == rest;
      var tail :| tail in Outcomes(readers, ps[1..], rest);
      assert Read(readers, ps[0], arguments[0]).value + tail in Outcomes(readers, ps, arguments);
    }
  }

  /** The walk is complete on one argument list. */
  ghost predicate Complete(readers: Readers, ps: seq<Pattern>, arguments: seq<string>) {
    Outcomes(readers, ps, arguments) != {} ==> Greedy(readers, ps, arguments).Some?
  }

  /** The walk misses no match on any argument list exactly when the patterns are unambiguous. */
  lemma {:induction false} GreedyIsCompleteIffUnambiguous(readers: Readers, ps: seq<Pattern>)
    requires readers.Valid() && forall p :: p in ps ==> WellFormed(p)
    ensures (forall arguments :: Complete(readers, ps, arguments)) <==> Unambiguous(readers, ps)
  {
    if Unambiguous(readers, ps) {
      forall arguments
        ensures Complete(readers, ps, arguments)
      {
        GreedyIsExact(readers, ps, arguments);
      }
    } else {
      var at :| 0 <= at < |ps| && ps[at].Optional? && AcceptedNext(readers, ps[at + 1..], ps[at].value);
      var arguments := Trap(readers, ps, at);
      assert !Complete(readers, ps, arguments);
    }
  }

  /** The smallest trap: an optional and a literal of the same word, given that word once. */
  lemma GreedyMissesAMatch(readers: Readers)
    ensures var ps := [Optional("any"), Literal("any")];
            Outcomes(readers, ps, ["any"]) == {map[]} && Greedy(readers, ps, ["any"]).None?
  {
    var ps := [Optional("any"), Literal("any")];
    assert ps[1..] == [Literal("any")] && ps[1..][1..] == [];
    assert ["any"][1..] == [];
    assert Outcomes(readers, ps[1..][1..], []) == {map[]};
    assert Outcomes(readers, ps[1..], ["any"]) == {map[]} by {
      var none: Captures := map[];
      assert none + none == none;
    }
    assert Outcomes(readers, ps[1..], []) == {};
  }
}
