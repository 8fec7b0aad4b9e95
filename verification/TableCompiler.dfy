/**
 From the YAML transition rules of a component to the transition table its state machine runs:
 the parser (libs/ServiceComponent/scripts/ServiceComponentParser.py) expands each rule's state
 pattern over the declared states, the generator
 (libs/ServiceComponent/scripts/generator/cpp/ServiceComponentSourceGenerator.py) writes the flat
 list out in order, and the generated machine (StateMachines) dispatches by first match.

 `matches(pattern, state)` stands for Python's `re.match`; nothing is assumed about it.
 */
module TableCompiler {
  import opened Options
  import EQ = EventQueues
  import SM = StateMachines

  /** One entry of a component's `transitions` list in the YAML file. */
  datatype Rule = Rule(state: string, next: string, event: string, action: Option<string>)

  /** The parser's Transition object. */
  datatype Transition = Transition(state: string, next: string, event: string, action: Option<string>)

  datatype ParseError =
    | UnknownStart
    | NoMatchingState
    | UnknownNext
    | UnknownEvent
    | AlreadyExists

  type Matcher = (string, string) -> bool

  /** What the generated C++ holds: enumerators by name, an action or none, never a guard. */
  type Entry = SM.Transition<string, string, string, ()>

  // ---------------------------------------------------------------------------------------------
  // Specification of the expansion

  function MatchingStates(states: seq<string>, pattern: string, matches: Matcher): (r: seq<string>)
    ensures forall s :: s in r <==> s in states && matches(pattern, s)
  {
    if states == [] then []
    else (if matches(pattern, states[0]) then [states[0]] else []) + MatchingStates(states[1..], pattern, matches)
  }

  /** The states are kept in order, each as often as it is declared. */
  lemma {:induction false} MatchingStatesOneMore(states: seq<string>, state: string, pattern: string, matches: Matcher)
    ensures MatchingStates(states + [state], pattern, matches)
         == MatchingStates(states, pattern, matches) + (if matches(pattern, state) then [state] else [])
    decreases |states|
  {
    if states == [] {
      assert [state][1..] == [] && [] + [state] == [state];
    } else {
      assert (states + [state])[1..] == states[1..] + [state];
      MatchingStatesOneMore(states[1..], state, pattern, matches);
    }
  }

  function Instantiate(rule: Rule, states: seq<string>): (r: seq<Transition>)
    ensures |r| == |states|
    ensures forall i :: 0 <= i < |r| ==> r[i] == Transition(states[i], rule.next, rule.event, rule.action)
  {
    seq(|states|, i requires 0 <= i < |states| => Transition(states[i], rule.next, rule.event, rule.action))
  }

  function Expand(rule: Rule, states: seq<string>, matches: Matcher): seq<Transition> {
    Instantiate(rule, MatchingStates(states, rule.state, matches))
  }

  function ExpandAll(rules: seq<Rule>, states: seq<string>, matches: Matcher): seq<Transition>
    decreases |rules|
  {
    if rules == [] then []
    else ExpandAll(rules[..|rules| - 1], states, matches) + Expand(rules[|rules| - 1], states, matches)
  }

  /** Two transitions the parser holds to be the same, whatever their actions. */
  predicate SameKey(a: Transition, b: Transition) {
    a.state == b.state && a.next == b.next && a.event == b.event
  }

  ghost predicate Distinct(table: seq<Transition>) {
    forall i, j :: 0 <= i < j < |table| ==> !SameKey(table[i], table[j])
  }

  /** The first complaint about a rule on its own, in the order the parser looks. */
  function Complaint(rule: Rule, states: seq<string>, events: seq<string>, matches: Matcher): Option<ParseError> {
    if MatchingStates(states, rule.state, matches) == [] then Some(NoMatchingState)
    else if rule.next !in states then Some(UnknownNext)
    else if rule.event !in events then Some(UnknownEvent)
    else None
  }

  lemma NoComplaintMeansWellFormed(rule: Rule, states: seq<string>, events: seq<string>, matches: Matcher)
    ensures Complaint(rule, states, events, matches) == None <==>
            && (exists s :: s in states && matches(rule.state, s))
            && rule.next in states
            && rule.event in events
  {
    var matching := MatchingStates(states, rule.state, matches);
    if matching == [] {
      assert forall s :: s in states && matches(rule.state, s) ==> s in matching;
    } else {
      assert matching[0] in matching;
    }
  }

  /** What the parser accepts as a transition list, said without following its steps. */
  ghost predicate AcceptsRules(rules: seq<Rule>, states: seq<string>, events: seq<string>, matches: Matcher) {
    && (forall i :: 0 <= i < |rules| ==> Complaint(rules[i], states, events, matches) == None)
    && Distinct(ExpandAll(rules, states, matches))
  }

  ghost predicate Accepts(start: string, rules: seq<Rule>, states: seq<string>, events: seq<string>, matches: Matcher) {
    start in states && AcceptsRules(rules, states, events, matches)
  }

  /** The error for a rule that is not acceptable after the rules before it. */
  ghost predicate RejectedWith(
      rules: seq<Rule>, i: nat, error: ParseError, states: seq<string>, events: seq<string>, matches: Matcher)
    requires i < |rules|
  {
    if Complaint(rules[i], states, events, matches).Some?
    then error == Complaint(rules[i], states, events, matches).value
    else error == AlreadyExists && !Distinct(ExpandAll(rules[..i + 1], states, matches))
  }

  lemma DistinctAppend(a: seq<Transition>, b: seq<Transition>)
    ensures Distinct(a + b) <==>
            Distinct(a) && Distinct(b) && forall t, u :: t in a && u in b ==> !SameKey(t, u)
  {
    if Distinct(a + b) {
      PrefixDistinct(a, a + b);
      forall i, j | 0 <= i < j < |b| ensures !SameKey(b[i], b[j]) {
        assert (a + b)[|a| + i] == b[i] && (a + b)[|a| + j] == b[j];
      }
      forall t, u | t in a && u in b ensures !SameKey(t, u) {
        var i, j :| 0 <= i < |a| && a[i] == t && 0 <= j < |b| && b[j] == u;
        assert (a + b)[i] == t && (a + b)[|a| + j] == u;
      }
    }
  }

  ghost predicate DeclaredTwice(states: seq<string>, pattern: string, matches: Matcher) {
    exists i, j :: 0 <= i < j < |states| && states[i] == states[j] && matches(pattern, states[i])
  }

  lemma DeclaredTwiceInTail(states: seq<string>, pattern: string, matches: Matcher)
    requires states != []
    ensures DeclaredTwice(states, pattern, matches) <==>
            (states[0] in states[1..] && matches(pattern, states[0])) || DeclaredTwice(states[1..], pattern, matches)
  {
    var tail := states[1..];
    if DeclaredTwice(tail, pattern, matches) {
      var i, j :| 0 <= i < j < |tail| && tail[i] == tail[j] && matches(pattern, tail[i]);
      assert states[i + 1] == states[j + 1] && matches(pattern, states[i + 1]);
    }
    if states[0] in tail && matches(pattern, states[0]) {
      var j :| 0 <= j < |tail| && tail[j] == states[0];
      assert states[0] == states[j + 1];
    }
    if DeclaredTwice(states, pattern, matches) {
      var i, j :| 0 <= i < j < |states| && states[i] == states[j] && matches(pattern, states[i]);
      assert tail[j - 1] == states[j];
      if i > 0 { assert tail[i - 1] == tail[j - 1] && matches(pattern, tail[i - 1]); }
    }
  }

  ghost predicate NoneTwice(states: seq<string>) {
    forall i, j :: 0 <= i < j < |states| ==> states[i] != states[j]
  }

  lemma NoneTwiceFirst(state: string, states: seq<string>)
    ensures NoneTwice([state] + states) <==> state !in states && NoneTwice(states)
  {
    var all := [state] + states;
    assert forall i :: 0 <= i < |states| ==> all[i + 1] == states[i];
    if NoneTwice(all) {
      forall i, j | 0 <= i < j < |states| ensures states[i] != states[j] {
        assert all[i + 1] != all[j + 1];
      }
      forall j | 0 <= j < |states| ensures states[j] != state {
        assert all[0] != all[j + 1];
      }
    }
  }

  lemma {:induction false} MatchingTwiceIff(states: seq<string>, pattern: string, matches: Matcher)
    ensures NoneTwice(MatchingStates(states, pattern, matches)) <==> !DeclaredTwice(states, pattern, matches)
    decreases |states|
  {
    if states != [] {
      var rest := MatchingStates(states[1..], pattern, matches);
      DeclaredTwiceInTail(states, pattern, matches);
      MatchingTwiceIff(states[1..], pattern, matches);
      if matches(pattern, states[0]) { NoneTwiceFirst(states[0], rest); } else { assert [] + rest == rest; }
    }
  }

  /** A rule repeats itself iff a state that it matches is declared twice. */
  lemma ExpandDistinctIff(rule: Rule, states: seq<string>, matches: Matcher)
    ensures Distinct(Expand(rule, states, matches)) <==> !DeclaredTwice(states, rule.state, matches)
  {
    MatchingTwiceIff(states, rule.state, matches);
    var matching, table := MatchingStates(states, rule.state, matches), Expand(rule, states, matches);
    assert forall i, j :: 0 <= i < j < |table| ==> (SameKey(table[i], table[j]) <==> matching[i] == matching[j]);
  }

  /** A state for which two rules say the same. */
  ghost predicate Agree(a: Rule, b: Rule, states: seq<string>, matches: Matcher) {
    && a.next == b.next && a.event == b.event
    && exists s :: s in states && matches(a.state, s) && matches(b.state, s)
  }

  lemma InExpand(rule: Rule, states: seq<string>, matches: Matcher, t: Transition)
    ensures t in Expand(rule, states, matches) <==>
            && t.state in states && matches(rule.state, t.state)
            && t == Transition(t.state, rule.next, rule.event, rule.action)
  {
    var matching, table := MatchingStates(states, rule.state, matches), Expand(rule, states, matches);
    if t in table {
      var i :| 0 <= i < |table| && table[i] == t;
      assert matching[i] in matching;
    }
    if t.state in matching {
      var i :| 0 <= i < |matching| && matching[i] == t.state;
      assert table[i] in table;
    }
  }

  lemma {:induction false} InExpandAll(rules: seq<Rule>, states: seq<string>, matches: Matcher, t: Transition)
    ensures t in ExpandAll(rules, states, matches) <==>
            exists rule :: rule in rules && t in Expand(rule, states, matches)
    decreases |rules|
  {
    if rules != [] {
      InExpandAll(rules[..|rules| - 1], states, matches, t);
      assert rules == rules[..|rules| - 1] + [rules[|rules| - 1]];
    }
  }

  /** The expansions of the two have no transition in common iff the rules do not agree anywhere. */
  lemma SameKeysIff(rules: seq<Rule>, last: Rule, states: seq<string>, matches: Matcher)
    ensures (forall t, u :: t in ExpandAll(rules, states, matches) && u in Expand(last, states, matches)
               ==> !SameKey(t, u)) <==>
            forall rule :: rule in rules ==> !Agree(rule, last, states, matches)
  {
    var a, b := ExpandAll(rules, states, matches), Expand(last, states, matches);
    forall rule | rule in rules && Agree(rule, last, states, matches)
      ensures exists t, u :: t in a && u in b && SameKey(t, u)
    {
      var s :| s in states && matches(rule.state, s) && matches(last.state, s);
      var t, u := Transition(s, rule.next, rule.event, rule.action), Transition(s, last.next, last.event, last.action);
      InExpand(rule, states, matches, t);
      InExpandAll(rules, states, matches, t);
      InExpand(last, states, matches, u);
      assert t in a && u in b && SameKey(t, u);
    }
    forall t, u | t in a && u in b && SameKey(t, u)
      ensures exists rule :: rule in rules && Agree(rule, last, states, matches)
    {
      InExpandAll(rules, states, matches, t);
      var rule :| rule in rules && t in Expand(rule, states, matches);
      InExpand(rule, states, matches, t);
      InExpand(last, states, matches, u);
    }
  }

  ghost predicate NoneDeclaredTwice(rules: seq<Rule>, states: seq<string>, matches: Matcher) {
    forall i :: 0 <= i < |rules| ==> !DeclaredTwice(states, rules[i].state, matches)
  }

  ghost predicate NoneAgree(rules: seq<Rule>, states: seq<string>, matches: Matcher) {
    forall i, j :: 0 <= i < j < |rules| ==> !Agree(rules[i], rules[j], states, matches)
  }

  lemma NoneAgreeOneMore(rules: seq<Rule>, last: Rule, states: seq<string>, matches: Matcher)
    ensures NoneAgree(rules + [last], states, matches) <==>
            NoneAgree(rules, states, matches) && forall rule :: rule in rules ==> !Agree(rule, last, states, matches)
  {
    var all := rules + [last];
    if NoneAgree(all, states, matches) {
      forall i, j | 0 <= i < j < |rules| ensures !Agree(rules[i], rules[j], states, matches) {
        assert all[i] == rules[i] && all[j] == rules[j];
      }
      forall rule | rule in rules ensures !Agree(rule, last, states, matches) {
        var i :| 0 <= i < |rules| && rules[i] == rule;
        assert all[i] == rule && all[|rules|] == last;
      }
    }
  }

  /** The expansion repeats nothing iff no state that counts is declared twice and no two rules agree on one. */
  lemma {:induction false} ExpansionDistinctIff(rules: seq<Rule>, states: seq<string>, matches: Matcher)
    ensures Distinct(ExpandAll(rules, states, matches)) <==>
            NoneDeclaredTwice(rules, states, matches) && NoneAgree(rules, states, matches)
    decreases |rules|
  {
    if rules != [] {
      var before, last := rules[..|rules| - 1], rules[|rules| - 1];
      assert rules == before + [last];
      ExpansionDistinctIff(before, states, matches);
      ExpandDistinctIff(last, states, matches);
      DistinctAppend(ExpandAll(before, states, matches), Expand(last, states, matches));
      SameKeysIff(before, last, states, matches);
      NoneAgreeOneMore(before, last, states, matches);
      assert NoneDeclaredTwice(rules, states, matches) <==>
             NoneDeclaredTwice(before, states, matches) && !DeclaredTwice(states, last.state, matches);
    }
  }

  lemma PrefixDistinct(a: seq<Transition>, b: seq<Transition>)
    requires a <= b && Distinct(b)
    ensures Distinct(a)
  {
    forall i, j | 0 <= i < j < |a| ensures !SameKey(a[i], a[j]) {
      assert b[i] == a[i] && b[j] == a[j];
    }
  }

  /**
   Main result: which state machine sections are accepted. Two rules may name the same state and event
   if their next states differ; actions do not matter.
   */
  lemma AcceptedIff(start: string, rules: seq<Rule>, states: seq<string>, events: seq<string>, matches: Matcher)
    ensures Accepts(start, rules, states, events, matches) <==>
            && start in states
            && (forall i :: 0 <= i < |rules| ==>
                  && (exists s :: s in states && matches(rules[i].state, s))
                  && rules[i].next in states && rules[i].event in events
                  && forall k, l :: 0 <= k < l < |states| && states[k] == states[l] ==>
                       !matches(rules[i].state, states[k]))
            && (forall i, j ::
                  0 <= i < j < |rules| && rules[i].next == rules[j].next && rules[i].event == rules[j].event ==>
                    !exists s :: s in states && matches(rules[i].state, s) && matches(rules[j].state, s))
  {
    ExpansionDistinctIff(rules, states, matches);
    forall i | 0 <= i < |rules| {
      NoComplaintMeansWellFormed(rules[i], states, events, matches);
    }
  }

  lemma {:induction false} PrefixOfExpansion(rules: seq<Rule>, n: nat, states: seq<string>, matches: Matcher)
    requires n <= |rules|
    ensures ExpandAll(rules[..n], states, matches) <= ExpandAll(rules, states, matches)
    decreases |rules|
  {
    if n < |rules| {
      PrefixOfExpansion(rules[..|rules| - 1], n, states, matches);
      assert rules[..|rules| - 1][..n] == rules[..n];
    } else {
      assert rules[..n] == rules;
    }
  }

  /** One more rule keeps the list acceptable iff it is itself good and repeats no earlier transition. */
  lemma OneMoreRule(rules: seq<Rule>, i: nat, states: seq<string>, events: seq<string>, matches: Matcher)
    requires i < |rules|
    requires AcceptsRules(rules[..i], states, events, matches)
    ensures ExpandAll(rules[..i + 1], states, matches)
         == ExpandAll(rules[..i], states, matches) + Expand(rules[i], states, matches)
    ensures AcceptsRules(rules[..i + 1], states, events, matches) <==>
            && Complaint(rules[i], states, events, matches) == None
            && Distinct(ExpandAll(rules[..i], states, matches) + Expand(rules[i], states, matches))
  {
    var upTo := rules[..i + 1];
    assert upTo[..i] == rules[..i] && upTo[i] == rules[i];
    forall k | 0 <= k < i
      ensures Complaint(upTo[k], states, events, matches) == None
    {
      assert upTo[k] == rules[..i][k];
    }
  }

  lemma BadPrefixRejectsTheList(
      rules: seq<Rule>, n: nat, states: seq<string>, events: seq<string>, matches: Matcher)
    requires n <= |rules|
    requires AcceptsRules(rules, states, events, matches)
    ensures AcceptsRules(rules[..n], states, events, matches)
  {
    PrefixOfExpansion(rules, n, states, matches);
    PrefixDistinct(ExpandAll(rules[..n], states, matches), ExpandAll(rules, states, matches));
    forall k | 0 <= k < n
      ensures Complaint(rules[..n][k], states, events, matches) == None
    {
      assert rules[..n][k] == rules[k];
    }
  }

  // ---------------------------------------------------------------------------------------------
  // The parser

  class StateMachineParser {
    const states: seq<string>
    const events: seq<string>
    const matches: Matcher
    var transitions: seq<Transition>

    constructor (states: seq<string>, events: seq<string>, matches: Matcher)
      ensures this.states == states && this.events == events && this.matches == matches
      ensures transitions == []
    {
      this.states, this.events, this.matches := states, events, matches;
      transitions := [];
    }

    /** `any` over the transitions so far: does one with this state, next state and event exist? */
    predicate Exists(state: string, next: string, event: string)
      reads this
    {
      exists t :: t in transitions && t.state == state && t.next == next && t.event == event
    }

    method ParseTransition(rule: Rule) returns (r: Result<(), ParseError>)
      requires Distinct(transitions)
      modifies this
      ensures Distinct(transitions)
      ensures r == Err(NoMatchingState) <==> forall s :: s in states ==> !matches(rule.state, s)
      ensures r == Err(UnknownNext) <==>
                (exists s :: s in states && matches(rule.state, s)) && rule.next !in states
      ensures r == Err(UnknownEvent) <==>
                (exists s :: s in states && matches(rule.state, s)) && rule.next in states && rule.event !in events
      ensures r.Err? && r.error != AlreadyExists ==>
                transitions == old(transitions) && Complaint(rule, states, events, matches) == Some(r.error)
      ensures r.Ok? || r == Err(AlreadyExists) ==> Complaint(rule, states, events, matches) == None
      ensures r == Err(AlreadyExists) ==> !Distinct(old(transitions) + Expand(rule, states, matches))
      ensures r.Ok? ==> transitions == old(transitions) + Expand(rule, states, matches)
      ensures r != Err(UnknownStart)
    {
      NoComplaintMeansWellFormed(rule, states, events, matches);
      var matchingStates := MatchingStates(states, rule.state, matches);
      assert |matchingStates| > 0 ==> matchingStates[0] in matchingStates;
      if |matchingStates| == 0 {
        return Err(NoMatchingState);
      }
      if rule.next !in states {
        return Err(UnknownNext);
      }
      if rule.event !in events {
        return Err(UnknownEvent);
      }
      ghost var before := transitions;
      ghost var all := Instantiate(rule, matchingStates);
      for i := 0 to |matchingStates|
        invariant transitions == before + all[..i]
        invariant Distinct(transitions)
      {
        if Exists(matchingStates[i], rule.next, rule.event) {
          ghost var j :| 0 <= j < |transitions| && SameKey(transitions[j], all[i]);
          assert (before + all)[j] == transitions[j];
          assert (before + all)[|before| + i] == all[i];
          assert !Distinct(before + all);
          return Err(AlreadyExists);
        }
        transitions := transitions + [Transition(matchingStates[i], rule.next, rule.event, rule.action)];
        assert all[..i + 1] == all[..i] + [all[i]];
      }
      assert all[..|matchingStates|] == all;
      return Ok(());
    }

    /** The whole `statemachine` section: accepted exactly when `Accepts`, and then fully expanded. */
    method ParseStateMachine(start: string, rules: seq<Rule>) returns (r: Result<(), ParseError>)
      requires transitions == []
      modifies this
      ensures r.Ok? <==> Accepts(start, rules, states, events, matches)
      ensures r.Ok? ==> transitions == ExpandAll(rules, states, matches)
      ensures r == Err(UnknownStart) <==> start !in states
      ensures r.Err? && start in states ==>
                exists i :: 0 <= i < |rules| && AcceptsRules(rules[..i], states, events, matches) &&
                  RejectedWith(rules, i, r.error, states, events, matches)
    {
      if start !in states {
        return Err(UnknownStart);
      }
      for i := 0 to |rules|
        invariant transitions == ExpandAll(rules[..i], states, matches)
        invariant AcceptsRules(rules[..i], states, events, matches)
      {
        OneMoreRule(rules, i, states, events, matches);
        r := ParseTransition(rules[i]);
        if r.Err? {
          if AcceptsRules(rules, states, events, matches) {
            BadPrefixRejectsTheList(rules, i + 1, states, events, matches);
          }
          return r;
        }
      }
      assert rules[..|rules|] == rules;
      return Ok(());
    }
  }

  // ---------------------------------------------------------------------------------------------
  // The generator

  /** An action is written out only when it is truthy: a missing and an empty one both give none. */
  function EmitAction(action: Option<string>): Option<string> {
    if action.Some? && action.value != "" then action else None
  }

  function Emit(t: Transition): Entry {
    SM.Transition(t.state, t.next, t.event, EmitAction(t.action), None)
  }

  function EmitAll(table: seq<Transition>): (r: seq<Entry>)
    ensures |r| == |table|
    ensures forall i :: 0 <= i < |r| ==> r[i] == Emit(table[i])
  {
    seq(|table|, i requires 0 <= i < |table| => Emit(table[i]))
  }

  /** One entry per transition, in order, with the action if one is written there, and never a guard. */
  method GenerateTransitions(table: seq<Transition>) returns (out: seq<Entry>)
    ensures out == EmitAll(table)
    ensures |out| == |table|
    ensures forall i :: 0 <= i < |out| ==>
              && out[i].state == table[i].state && out[i].next == table[i].next && out[i].event == table[i].event
              && (if table[i].action.Some? && table[i].action.value != "" then out[i].action == table[i].action
                  else out[i].action == None)
              && out[i].guard == None
  {
    out := [];
    for i := 0 to |table|
      invariant out == EmitAll(table)[..i]
    {
      var action := if table[i].action.Some? && table[i].action.value != "" then table[i].action else None;
      out := out + [SM.Transition(table[i].state, table[i].next, table[i].event, action, None)];
    }
  }

  // ---------------------------------------------------------------------------------------------
  // The meaning of the rules themselves

  predicate Applies(rule: Rule, state: string, event: string, matches: Matcher) {
    matches(rule.state, state) && rule.event == event
  }

  /** The first rule, in file order, whose pattern matches the state and whose event is the event. */
  function FirstRule(rules: seq<Rule>, state: string, event: string, matches: Matcher): (r: Option<nat>)
    ensures r.Some? ==> r.value < |rules|
    decreases |rules|
  {
    if rules == [] then None
    else
      match FirstRule(rules[..|rules| - 1], state, event, matches)
      case Some(i) => Some(i)
      case None => if Applies(rules[|rules| - 1], state, event, matches) then Some(|rules| - 1) else None
  }

  lemma {:induction false} FirstRuleIsFirst(rules: seq<Rule>, state: string, event: string, matches: Matcher)
    ensures match FirstRule(rules, state, event, matches)
            case None => forall j :: 0 <= j < |rules| ==> !Applies(rules[j], state, event, matches)
            case Some(i) =>
              && Applies(rules[i], state, event, matches)
              && forall j :: 0 <= j < i ==> !Applies(rules[j], state, event, matches)
    decreases |rules|
  {
    if rules != [] {
      FirstRuleIsFirst(rules[..|rules| - 1], state, event, matches);
    }
  }

  /** State reached by interpreting the rules directly on a list of events. */
  function InterpretState(rules: seq<Rule>, start: string, events: seq<string>, matches: Matcher): string
    decreases |events|
  {
    if events == [] then start
    else
      var state := InterpretState(rules, start, events[..|events| - 1], matches);
      match FirstRule(rules, state, events[|events| - 1], matches)
      case None => state
      case Some(i) => rules[i].next
  }

  /** The actions run on the way: those written in the rules that are taken, unless empty. */
  function InterpretActions(rules: seq<Rule>, start: string, events: seq<string>, matches: Matcher)
    : seq<SM.Performed<string, string, string>>
    decreases |events|
  {
    if events == [] then []
    else
      var before, event := events[..|events| - 1], events[|events| - 1];
      InterpretActions(rules, start, before, matches) +
      match FirstRule(rules, InterpretState(rules, start, before, matches), event, matches)
      case None => []
      case Some(i) =>
        if rules[i].action.Some? && rules[i].action.value != ""
        then [SM.Performed(rules[i].action.value, event, rules[i].next)] else []
  }

  // ---------------------------------------------------------------------------------------------
  // Compilation preserves meaning

  lemma {:induction false} ChooseAppend(a: seq<Entry>, b: seq<Entry>, state: string, event: string, held: set<()>)
    ensures SM.Choose(a + b, state, event, held)
         == if SM.Choose(a, state, event, held).Some? then SM.Choose(a, state, event, held)
            else SM.Choose(b, state, event, held)
    decreases |a|
  {
    if a == [] {
      assert a + b == b;
    } else {
      SM.ChooseFromHead(a, state, event, held);
      SM.ChooseFromHead(a + b, state, event, held);
      assert (a + b)[1..] == a[1..] + b;
      ChooseAppend(a[1..], b, state, event, held);
    }
  }

  /** One expanded rule answers exactly for the states its pattern matches. */
  lemma ExpandedRuleDispatch(
      rule: Rule, states: seq<string>, matches: Matcher, state: string, event: string, held: set<()>)
    requires state in states
    ensures SM.Choose(EmitAll(Expand(rule, states, matches)), state, event, held)
         == if matches(rule.state, state) && rule.event == event
            then Some(SM.Transition(state, rule.next, event, EmitAction(rule.action), None)) else None
  {
    var matching := MatchingStates(states, rule.state, matches);
    var table := EmitAll(Expand(rule, states, matches));
    var found := SM.FindTransition(table, state, event, held);
    if Applies(rule, state, event, matches) {
      var i :| 0 <= i < |matching| && matching[i] == state;
      assert SM.Enabled(table[i], state, event, held);
    } else {
      forall j | 0 <= j < |table|
        ensures !SM.Enabled(table[j], state, event, held)
      {
        assert matching[j] in matching;
      }
    }
  }

  lemma EmitAllAppend(a: seq<Transition>, b: seq<Transition>)
    ensures EmitAll(a + b) == EmitAll(a) + EmitAll(b)
  {
  }

  /** The first-match machine on the emitted table takes the step of the first applicable rule. */
  lemma {:induction false} DispatchPreserved(
      rules: seq<Rule>, states: seq<string>, matches: Matcher, state: string, event: string, held: set<()>)
    requires state in states
    ensures SM.Choose(EmitAll(ExpandAll(rules, states, matches)), state, event, held) ==
            match FirstRule(rules, state, event, matches)
            case None => None
            case Some(i) => Some(SM.Transition(state, rules[i].next, event, EmitAction(rules[i].action), None))
    decreases |rules|
  {
    if rules != [] {
      var before, last := rules[..|rules| - 1], rules[|rules| - 1];
      DispatchPreserved(before, states, matches, state, event, held);
      ExpandedRuleDispatch(last, states, matches, state, event, held);
      var a, b := ExpandAll(before, states, matches), Expand(last, states, matches);
      ChooseAppend(EmitAll(a), EmitAll(b), state, event, held);
      EmitAllAppend(a, b);
    }
  }

  lemma InterpretAppend(rules: seq<Rule>, start: string, events: seq<string>, event: string, matches: Matcher)
    ensures var state := InterpretState(rules, start, events, matches);
            var first := FirstRule(rules, state, event, matches);
            && InterpretState(rules, start, events + [event], matches)
               == (if first.Some? then rules[first.value].next else state)
            && InterpretActions(rules, start, events + [event], matches) == InterpretActions(rules, start, events, matches) +
               (if first.Some? && rules[first.value].action.Some? && rules[first.value].action.value != ""
                then [SM.Performed(rules[first.value].action.value, event, rules[first.value].next)] else [])
  {
    assert (events + [event])[..|events|] == events;
  }

  lemma NextIsDeclared(
      start: string, rules: seq<Rule>, states: seq<string>, events: seq<string>, matches: Matcher,
      state: string, event: string)
    requires Accepts(start, rules, states, events, matches)
    ensures match FirstRule(rules, state, event, matches)
            case None => true
            case Some(i) => rules[i].next in states
  {
    match FirstRule(rules, state, event, matches)
    case None =>
    case Some(i) => assert Complaint(rules[i], states, events, matches) == None;
  }

  /** What one more event does to the table's machine is what the rules say. */
  lemma FoldStep(
      rules: seq<Rule>, states: seq<string>, matches: Matcher, start: string, taken: seq<SM.Taken<string, ()>>,
      last: SM.Taken<string, ()>)
    requires SM.FoldState(EmitAll(ExpandAll(rules, states, matches)), start, taken) in states
    ensures var table := EmitAll(ExpandAll(rules, states, matches));
            var state := SM.FoldState(table, start, taken);
            match FirstRule(rules, state, last.event, matches)
            case None =>
              && SM.FoldState(table, start, taken + [last]) == state
              && SM.FoldActions(table, start, taken + [last]) == SM.FoldActions(table, start, taken)
            case Some(i) =>
              && SM.FoldState(table, start, taken + [last]) == rules[i].next
              && SM.FoldActions(table, start, taken + [last]) == SM.FoldActions(table, start, taken) +
                 (if rules[i].action.Some? && rules[i].action.value != ""
                  then [SM.Performed(rules[i].action.value, last.event, rules[i].next)] else [])
  {
    var table := EmitAll(ExpandAll(rules, states, matches));
    var state := SM.FoldState(table, start, taken);
    SM.FoldAppend(table, start, taken, last);
    DispatchPreserved(rules, states, matches, state, last.event, last.held);
    if FirstRule(rules, state, last.event, matches) == None {
      assert SM.FoldActions(table, start, taken) + [] == SM.FoldActions(table, start, taken);
    }
  }

  /** On every list of consumed events the compiled table and the rules agree, and the state stays declared. */
  lemma {:induction false} FoldPreserved(
      start: string, rules: seq<Rule>, states: seq<string>, events: seq<string>, matches: Matcher,
      taken: seq<SM.Taken<string, ()>>)
    requires Accepts(start, rules, states, events, matches)
    ensures var table := EmitAll(ExpandAll(rules, states, matches));
            var consumed := SM.TakenEvents(taken);
            && SM.FoldState(table, start, taken) == InterpretState(rules, start, consumed, matches)
            && SM.FoldActions(table, start, taken) == InterpretActions(rules, start, consumed, matches)
            && SM.FoldState(table, start, taken) in states
    decreases |taken|
  {
    if taken != [] {
      var before, last := taken[..|taken| - 1], taken[|taken| - 1];
      var consumed := SM.TakenEvents(before);
      FoldPreserved(start, rules, states, events, matches, before);
      assert taken == before + [last] && SM.TakenEvents(taken) == consumed + [last.event];
      FoldStep(rules, states, matches, start, before, last);
      InterpretAppend(rules, start, consumed, last.event, matches);
      NextIsDeclared(
        start, rules, states, events, matches, InterpretState(rules, start, consumed, matches), last.event);
    }
  }

  /**
   Main result: the component generated from any accepted rule list, in any run with any pushes by
   other threads and by its own actions and any resets, is in the state, and has run the actions,
   that interpreting the YAML rules on its consumed events gives.
   */
  lemma CompiledMachineMeansItsRules(
      start: string, rules: seq<Rule>, states: seq<string>, events: seq<string>, matches: Matcher,
      maxSize: nat, inputs: seq<SM.Input<string, ()>>)
    requires Accepts(start, rules, states, events, matches)
    ensures var table := EmitAll(ExpandAll(rules, states, matches));
            var m := SM.RunMachine(table, maxSize, SM.Initial(start), inputs);
            var consumed := EQ.ConsumedEvents(m.queue.gone);
            && m.state == InterpretState(rules, start, consumed, matches)
            && m.performed == InterpretActions(rules, start, consumed, matches)
            && m.state in states
  {
    var table := EmitAll(ExpandAll(rules, states, matches));
    SM.EveryRunIsTheFold(table, maxSize, start, inputs);
    var m := SM.RunMachine(table, maxSize, SM.Initial(start), inputs);
    FoldPreserved(start, rules, states, events, matches, m.taken);
  }

  /** A whole component: parsed, generated and constructed, then ready to run as above. */
  method BuildMachine(start: string, rules: seq<Rule>, states: seq<string>, events: seq<string>, matches: Matcher)
    returns (r: Result<SM.StateMachine<string, string, string, ()>, ParseError>)
    ensures r.Ok? <==> Accepts(start, rules, states, events, matches)
    ensures r.Ok? ==>
              && fresh(r.value) && fresh(r.value.eventQueue) && r.value.Valid()
              && r.value.Model() == SM.Initial(start)
              && r.value.transitions == EmitAll(ExpandAll(rules, states, matches))
  {
    var parser := new StateMachineParser(states, events, matches);
    var parsed := parser.ParseStateMachine(start, rules);
    if parsed.Err? {
      return Err(parsed.error);
    }
    var table := GenerateTransitions(parser.transitions);
    var machine := new SM.StateMachine(start, table);
    return Ok(machine);
  }

  // ---------------------------------------------------------------------------------------------
  // Conflicting rules

  /**
   A rule is ever taken in a declared state iff some declared state it matches is matched by no
   earlier rule for the same event; otherwise it is dead, and nothing reports that.
   */
  ghost predicate Live(rules: seq<Rule>, k: nat, states: seq<string>, matches: Matcher)
    requires k < |rules|
  {
    exists s :: s in states && FirstRule(rules, s, rules[k].event, matches) == Some(k)
  }

  lemma DeadIffCovered(rules: seq<Rule>, k: nat, states: seq<string>, matches: Matcher)
    requires k < |rules|
    ensures !Live(rules, k, states, matches) <==>
            forall s :: s in states && matches(rules[k].state, s) ==>
              exists j :: 0 <= j < k && Applies(rules[j], s, rules[k].event, matches)
  {
    var event := rules[k].event;
    forall s | s in states && matches(rules[k].state, s)
      ensures FirstRule(rules, s, event, matches) == Some(k) <==>
              !exists j :: 0 <= j < k && Applies(rules[j], s, event, matches)
    {
      FirstRuleIsFirst(rules, s, event, matches);
      assert Applies(rules[k], s, event, matches);
    }
    if Live(rules, k, states, matches) {
      var s :| s in states && FirstRule(rules, s, event, matches) == Some(k);
      FirstRuleIsFirst(rules, s, event, matches);
    }
  }

  /**
   "The parser rejects two rules for the same state and event" is false: these two differ only in
   their next state, are accepted, and the second is dead.
   */
  lemma ConflictingRulesAreAccepted()
    ensures var rules := [Rule("A", "A", "go", None), Rule("A", "B", "go", None)];
            var matches := (p: string, s: string) => p == s;
            && Accepts("A", rules, ["A", "B"], ["go"], matches)
            && !Live(rules, 1, ["A", "B"], matches)
  {
    var rules := [Rule("A", "A", "go", None), Rule("A", "B", "go", None)];
    var matches := (p: string, s: string) => p == s;
    var states := ["A", "B"];
    assert "A" in states && "B" in states;
    assert MatchingStates(states, "A", matches) == ["A"] by {
      assert states[1..] == ["B"];
      assert MatchingStates(["B"], "A", matches) == [];
    }
    assert rules[..1] == [rules[0]] && rules[..1][..0] == [];
    assert ExpandAll(rules[..1], states, matches) == [Transition("A", "A", "go", None)];
    assert ExpandAll(rules, states, matches)
        == [Transition("A", "A", "go", None), Transition("A", "B", "go", None)];
    assert Complaint(rules[0], states, ["go"], matches) == None;
    assert Complaint(rules[1], states, ["go"], matches) == None;
    forall s | s in states && matches(rules[1].state, s)
      ensures Applies(rules[0], s, "go", matches)
    {
    }
    DeadIffCovered(rules, 1, states, matches);
  }
}
