/** The services of a configuration, the numbers of their rules, and the choice of the service for a message. */
module Matcher {
  import opened Bytes
  import opened OrderedSets
  import opened Rules

  // ---------------------------------------------------------------------------
  // Services from a configuration: for each service, its rules in the order they are written.

  /** The rules of one service, as a set. */
  function RuleSet(rules: seq<Rule>): seq<Rule> {
    if rules == [] then [] else Insert(RuleLess, RuleSet(rules[..|rules| - 1]), rules[|rules| - 1])
  }

  datatype Service = Service(rules: seq<Rule>, index: nat)

  predicate ServiceLess(a: Service, b: Service) {
    RequestLess(a.rules, b.rules)
  }

  function Build(config: seq<seq<Rule>>): seq<Service> {
    if config == [] then []
    else
      var last := |config| - 1;
      Insert(ServiceLess, Build(config[..last]), Service(RuleSet(config[last]), last))
  }

  /** No two different rules share a comparison key. */
  predicate Apart(rules: set<Rule>) {
    forall a, b :: a in rules && b in rules && Same(RuleLess, a, b) ==> a == b
  }

  predicate Uses(config: seq<seq<Rule>>, rules: set<Rule>) {
    forall i, r :: 0 <= i < |config| && r in config[i] ==> r in rules
  }

  lemma ServiceOrder()
    ensures Order(ServiceLess)
  {
    RequestOrder();
    forall a ensures !ServiceLess(a, a) {
      assert !RequestLess(a.rules, a.rules);
    }
    forall a, b, c | ServiceLess(a, c) ensures ServiceLess(a, b) || ServiceLess(b, c) {
      assert RequestLess(a.rules, b.rules) || RequestLess(b.rules, c.rules);
    }
  }

  lemma {:induction false} RuleSetIncreasing(rules: seq<Rule>)
    ensures Increasing(RuleLess, RuleSet(rules)) && forall r :: r in RuleSet(rules) ==> r in rules
  {
    if rules != [] {
      var init := rules[..|rules| - 1];
      RuleOrder();
      RuleSetIncreasing(init);
      InsertIncreasing(RuleLess, RuleSet(init), rules[|rules| - 1]);
      InsertMembers(RuleLess, RuleSet(init), rules[|rules| - 1]);
      assert rules == init + [rules[|rules| - 1]];
    }
  }

  /** Every rule of a service has an equivalent one in the service's set. */
  lemma {:induction false} RuleSetHas(rules: seq<Rule>, r: Rule)
    requires r in rules
    ensures Has(RuleLess, RuleSet(rules), r)
  {
    var init, last := rules[..|rules| - 1], rules[|rules| - 1];
    assert rules == init + [last];
    RuleOrder();
    RuleSetIncreasing(init);
    InsertHas(RuleLess, RuleSet(init), last, r);
    if r in init {
      RuleSetHas(init, r);
    }
  }

  /** With different keys, the set of a service's rules has exactly the rules written. */
  lemma RuleSetMembers(rules: seq<Rule>, all: set<Rule>, r: Rule)
    requires Apart(all) && forall x :: x in rules ==> x in all
    ensures r in RuleSet(rules) <==> r in rules
  {
    RuleSetIncreasing(rules);
    if r in rules {
      RuleSetHas(rules, r);
      var i :| 0 <= i < |RuleSet(rules)| && Same(RuleLess, RuleSet(rules)[i], r);
      assert RuleSet(rules)[i] in RuleSet(rules);
    }
  }

  // ---------------------------------------------------------------------------
  // The numbers of the rules.

  /** Adds the rules of one service to the set of all rules. */
  function Collected(all: seq<Rule>, rules: seq<Rule>): seq<Rule> {
    if rules == [] then all else Insert(RuleLess, Collected(all, rules[..|rules| - 1]), rules[|rules| - 1])
  }

  function AllRules(services: seq<Service>): seq<Rule> {
    if services == [] then []
    else Collected(AllRules(services[..|services| - 1]), services[|services| - 1].rules)
  }

  lemma {:induction false} CollectedHas(all: seq<Rule>, rules: seq<Rule>, r: Rule)
    requires Increasing(RuleLess, all)
    ensures Increasing(RuleLess, Collected(all, rules))
    ensures Has(RuleLess, all, r) || r in rules ==> Has(RuleLess, Collected(all, rules), r)
    decreases |rules|
  {
    RuleOrder();
    if rules != [] {
      var init, last := rules[..|rules| - 1], rules[|rules| - 1];
      assert rules == init + [last];
      CollectedHas(all, init, r);
      InsertIncreasing(RuleLess, Collected(all, init), last);
      InsertHas(RuleLess, Collected(all, init), last, r);
    }
  }

  /** Every rule of a service has an equivalent one among all rules. */
  lemma {:induction false} AllRulesHave(services: seq<Service>, r: Rule)
    ensures Increasing(RuleLess, AllRules(services))
    ensures (exists i :: 0 <= i < |services| && r in services[i].rules) ==> Has(RuleLess, AllRules(services), r)
  {
    if services != [] {
      var init, last := services[..|services| - 1], services[|services| - 1];
      AllRulesHave(init, r);
      CollectedHas(AllRules(init), last.rules, r);
      if i :| 0 <= i < |services| && r in services[i].rules {
        if i < |init| {
          assert r in init[i].rules;
        }
      }
    }
  }

  function IdOf(services: seq<Service>, r: Rule): nat {
    Place(RuleLess, AllRules(services), r)
  }

  predicate Within(services: seq<Service>, r: Rule) {
    exists i :: 0 <= i < |services| && r in services[i].rules
  }

  /** Two rules have the same number exactly when they are equivalent. */
  lemma IdsIdentify(services: seq<Service>, a: Rule, b: Rule)
    requires Within(services, a) && Within(services, b)
    ensures IdOf(services, a) == IdOf(services, b) <==> Same(RuleLess, a, b)
  {
    RuleOrder();
    AllRulesHave(services, a);
    AllRulesHave(services, b);
    SamePlace(RuleLess, AllRules(services), a, b);
  }

  // ---------------------------------------------------------------------------
  // The memory of a message.

  /** One check of a rule: the answer remembered for its number, or the answer found and remembered. */
  function Check(world: World, id: nat, r: Rule, c: Content, memo: map<nat, bool>): (map<nat, bool>, bool) {
    if id in memo then (memo, memo[id]) else (memo[id := Direct(world, r, c)], Direct(world, r, c))
  }

  /** The answers of a row of checks on one message. */
  function Checks(world: World, services: seq<Service>, rules: seq<Rule>, c: Content, memo: map<nat, bool>)
    : (r: seq<bool>)
    ensures |r| == |rules|
    decreases |rules|
  {
    if rules == [] then []
    else
      var (after, answer) := Check(world, IdOf(services, rules[0]), rules[0], c, memo);
      [answer] + Checks(world, services, rules[1..], c, after)
  }

  /** What is remembered is right for every rule of the services. */
  predicate Right(world: World, services: seq<Service>, all: set<Rule>, c: Content, memo: map<nat, bool>) {
    forall r :: r in all && IdOf(services, r) in memo ==> memo[IdOf(services, r)] == Direct(world, r, c)
  }

  /** The services have these rules. */
  predicate Covers(services: seq<Service>, all: set<Rule>) {
    forall r :: r in all ==> Within(services, r)
  }

  lemma CheckRight(world: World, services: seq<Service>, all: set<Rule>, r: Rule, c: Content, memo: map<nat, bool>)
    requires Covers(services, all) && Apart(all) && r in all && Right(world, services, all, c, memo)
    ensures var (after, answer) := Check(world, IdOf(services, r), r, c, memo);
            answer == Direct(world, r, c) && Right(world, services, all, c, after)
  {
    var (after, answer) := Check(world, IdOf(services, r), r, c, memo);
    forall x | x in all && IdOf(services, x) in after ensures after[IdOf(services, x)] == Direct(world, x, c) {
      IdsIdentify(services, x, r);
    }
  }

  /** With different keys, every answer is what the rule says of the message, whatever was checked before. */
  lemma {:induction false} MemoAgrees(world: World, services: seq<Service>, all: set<Rule>, rules: seq<Rule>,
                                      c: Content, memo: map<nat, bool>, i: nat)
    requires Covers(services, all) && Apart(all) && Right(world, services, all, c, memo)
    requires i < |rules| && forall r :: r in rules ==> r in all
    ensures Checks(world, services, rules, c, memo)[i] == Direct(world, rules[i], c)
    decreases |rules|
  {
    CheckRight(world, services, all, rules[0], c, memo);
    if i > 0 {
      MemoAgrees(world, services, all, rules[1..], c, Check(world, IdOf(services, rules[0]), rules[0], c, memo).0,
        i - 1);
    }
  }

  /** A header rule of a kind other than a regular expression. */
  predicate Plain(r: Rule) {
    r.header != [] && r.pointer == [] && r.kind != RegexMatch
  }

  /** Different rules of this kind with one key are told apart by a message that has only the header of the first. */
  lemma Telling(world: World, a: Rule, b: Rule)
    requires Plain(a) && Plain(b) && Same(RuleLess, a, b) && a != b
    ensures var c := Content([(a.header, a.input)], []); Direct(world, a, c) && !Direct(world, b, c)
  {
    var c := Content([(a.header, a.input)], []);
    RuleSame(a, b);
    SameParts(a, b);
    assert a.input[0..0 + |a.input|] == a.input;
    assert OccursAt(a.input, a.input, 0);
    assert Satisfied(world, a.kind, a.input, a.input);
    assert c.headers[0].0 == a.header;
  }

  lemma SameParts(a: Rule, b: Rule)
    requires Plain(a) && Plain(b) && Key(a) == Key(b) && a != b
    ensures a.kind == b.kind && a.header != b.header
  {
    assert Key(a)[0] == Digit(a.kind) && Key(b)[0] == Digit(b.kind);
    assert Key(a)[1 + |a.header|..] == a.input && Key(b)[1 + |b.header|..] == b.input;
  }

  // The header `a` with the value `bc`, the header `ab` with the value `c`, and the header `b` with the value `x`
  const RULE_A := Rule(EqualsTo, [97], [], [98, 99])
  const RULE_AB := Rule(EqualsTo, [97, 98], [], [99])
  const RULE_B := Rule(EqualsTo, [98], [], [120])

  lemma OneKey()
    ensures Same(RuleLess, RULE_A, RULE_AB)
  {
    assert Key(RULE_A) == [48] + [97] + [] + [98, 99] == [48, 97, 98, 99];
    assert Key(RULE_AB) == [48] + [97, 98] + [] + [99] == [48, 97, 98, 99];
    RuleSame(RULE_A, RULE_AB);
  }

  /** The first two have one key. */
  lemma KeysCoincide(world: World)
    ensures RULE_A != RULE_AB && Same(RuleLess, RULE_A, RULE_AB)
    ensures var c := Content([([97], [98, 99])], []); Direct(world, RULE_A, c) && !Direct(world, RULE_AB, c)
  {
    OneKey();
    Telling(world, RULE_A, RULE_AB);
  }

  /** Then the second rule gets the answer of the first. */
  lemma MemoDisagrees(world: World, services: seq<Service>, a: Rule, b: Rule)
    requires Within(services, a) && Within(services, b) && Plain(a) && Plain(b) && Same(RuleLess, a, b) && a != b
    ensures var c := Content([(a.header, a.input)], []);
            Checks(world, services, [a, b], c, map[])[1] != Direct(world, b, c)
  {
    var c := Content([(a.header, a.input)], []);
    Telling(world, a, b);
    MemoFooled(world, services, a, b, c);
  }

  /** So, for header rules without regular expressions, the memory is right in every row of checks exactly when the
      keys differ. */
  lemma MemoAgreesExactly(world: World, services: seq<Service>, all: set<Rule>)
    requires Covers(services, all) && forall r :: r in all ==> Plain(r)
    ensures Apart(all) <==> forall rules: seq<Rule>, c, i: nat :: i < |rules| && (forall r :: r in rules ==> r in all)
                              ==> Checks(world, services, rules, c, map[])[i] == Direct(world, rules[i], c)
  {
    if Apart(all) {
      forall rules: seq<Rule>, c, i: nat | i < |rules| && (forall r :: r in rules ==> r in all)
        ensures Checks(world, services, rules, c, map[])[i] == Direct(world, rules[i], c)
      {
        MemoAgrees(world, services, all, rules, c, map[], i);
      }
    } else {
      var a, b :| a in all && b in all && Same(RuleLess, a, b) && a != b;
      MemoDisagrees(world, services, a, b);
      assert [a, b][1] == b;
    }
  }

  // Rules of any kind, in a world that can be chosen.

  /** A world where a regular expression matches itself only, and every pointer leads to the whole payload. */
  function LiteralWorld(): World {
    World((subject, input) => subject == input, (payload, pointer) => payload)
  }

  /** In it, an input satisfies its own rule, and no rule of a longer input. */
  lemma LiteralSatisfied(kind: Kind, subject: text, input: text)
    ensures subject == input ==> Satisfied(LiteralWorld(), kind, subject, input)
    ensures |subject| < |input| ==> !Satisfied(LiteralWorld(), kind, subject, input)
  {
    if subject == input {
      assert OccursAt(subject, input, 0) by {
        assert subject[0..|input|] == input;
      }
    }
  }

  /** Different rules with one key and one header name, or none, have inputs of different lengths. */
  lemma DifferentInputs(a: Rule, b: Rule)
    requires Key(a) == Key(b) && a.header == b.header && a != b
    ensures a.kind == b.kind && |a.input| != |b.input|
  {
    assert Key(a)[0] == Digit(a.kind) && Key(b)[0] == Digit(b.kind);
    var n := 1 + |a.header|;
    assert Key(a)[n..] == a.pointer + a.input && Key(b)[n..] == b.pointer + b.input;
    if |a.input| == |b.input| {
      assert (a.pointer + a.input)[..|a.pointer|] == a.pointer && (b.pointer + b.input)[..|b.pointer|] == b.pointer;
      assert (a.pointer + a.input)[|a.pointer|..] == a.input && (b.pointer + b.input)[|b.pointer|..] == b.input;
    }
  }

  /** The message that satisfies a rule by its own input. */
  function Answering(r: Rule): Content {
    if r.header != [] then Content([(r.header, r.input)], []) else Content([], r.input)
  }

  lemma AnsweringSatisfies(r: Rule)
    ensures Direct(LiteralWorld(), r, Answering(r))
  {
    LiteralSatisfied(r.kind, r.input, r.input);
    if r.header != [] {
      assert Answering(r).headers[0].0 == r.header;
    }
  }

  /** Of two different rules with one key, one has an answering message that does not satisfy the other. */
  lemma TellingAny(a: Rule, b: Rule)
    requires Same(RuleLess, a, b) && a != b
    ensures !Direct(LiteralWorld(), b, Answering(a)) || !Direct(LiteralWorld(), a, Answering(b))
  {
    RuleSame(a, b);
    if a.header == b.header {
      DifferentInputs(a, b);
      LiteralSatisfied(b.kind, a.input, b.input);
      LiteralSatisfied(a.kind, b.input, a.input);
    }
  }

  lemma MemoFooled(world: World, services: seq<Service>, a: Rule, b: Rule, c: Content)
    requires Within(services, a) && Within(services, b) && Same(RuleLess, a, b)
    requires Direct(world, a, c) && !Direct(world, b, c)
    ensures Checks(world, services, [a, b], c, map[])[1] != Direct(world, [a, b][1], c)
  {
    IdsIdentify(services, a, b);
    assert [a, b][1..] == [b];
    var (after, answer) := Check(world, IdOf(services, a), a, c, map[]);
    assert Checks(world, services, [b], c, after)[0] == Check(world, IdOf(services, b), b, c, after).1;
  }

  /** Every answer of every row of checks of these rules on every message is the direct one, whatever regular
      expressions and pointers mean. */
  ghost predicate AlwaysDirect(services: seq<Service>, all: set<Rule>) {
    forall world, rules: seq<Rule>, c, i: nat :: i < |rules| && (forall r :: r in rules ==> r in all)
      ==> Checks(world, services, rules, c, map[])[i] == Direct(world, rules[i], c)
  }

  lemma FooledOnce(services: seq<Service>, all: set<Rule>, a: Rule, b: Rule)
    requires Covers(services, all) && a in all && b in all && Same(RuleLess, a, b)
    requires !Direct(LiteralWorld(), b, Answering(a))
    ensures !AlwaysDirect(services, all)
  {
    AnsweringSatisfies(a);
    MemoFooled(LiteralWorld(), services, a, b, Answering(a));
    assert forall r :: r in [a, b] ==> r in all;
  }

  /** For rules of every kind, the memory is right in every world, row and message exactly when the keys differ. */
  lemma MemoExact(services: seq<Service>, all: set<Rule>)
    requires Covers(services, all)
    ensures Apart(all) <==> AlwaysDirect(services, all)
  {
    if Apart(all) {
      forall world, rules: seq<Rule>, c, i: nat | i < |rules| && (forall r :: r in rules ==> r in all)
        ensures Checks(world, services, rules, c, map[])[i] == Direct(world, rules[i], c)
      {
        MemoAgrees(world, services, all, rules, c, map[], i);
      }
    } else {
      var a, b :| a in all && b in all && Same(RuleLess, a, b) && a != b;
      TellingAny(a, b);
      if !Direct(LiteralWorld(), b, Answering(a)) {
        FooledOnce(services, all, a, b);
      } else {
        FooledOnce(services, all, b, a);
      }
    }
  }

  // ---------------------------------------------------------------------------
  // The choice of a service.

  /** The last of the first `n` services all of whose rules hold. */
  function Chosen(world: World, services: seq<Service>, c: Content, n: nat): Option<nat>
    requires n <= |services|
  {
    if n == 0 then None
    else if AllDirect(world, services[n - 1].rules, c) then Some(n - 1)
    else Chosen(world, services, c, n - 1)
  }

  lemma {:induction false} ChosenIsLast(world: World, services: seq<Service>, c: Content, n: nat)
    requires n <= |services|
    ensures var r := Chosen(world, services, c, n);
            && (r.Some? ==> r.value < n && AllDirect(world, services[r.value].rules, c))
            && forall j :: 0 <= j < n && (r.Some? ==> r.value < j) ==> !AllDirect(world, services[j].rules, c)
  {
    if n > 0 {
      ChosenIsLast(world, services, c, n - 1);
    }
  }

  lemma {:induction false} BuildIncreasing(config: seq<seq<Rule>>)
    ensures Increasing(ServiceLess, Build(config))
    ensures forall s :: s in Build(config) ==> s.index < |config| && s.rules == RuleSet(config[s.index])
  {
    if config != [] {
      var last := |config| - 1;
      var init := config[..last];
      var added := Service(RuleSet(config[last]), last);
      BuildIncreasing(init);
      ServiceOrder();
      InsertIncreasing(ServiceLess, Build(init), added);
      InsertMembers(ServiceLess, Build(init), added);
      forall s | s in Build(config) ensures s.index < |config| && s.rules == RuleSet(config[s.index]) {
        if s != added {
          assert s in Build(init) && init[s.index] == config[s.index];
        }
      }
    }
  }

  /** The chosen service matches, and no matching service has more rules. If none is chosen, none matches. */
  lemma ChosenIsBest(world: World, config: seq<seq<Rule>>, c: Content)
    ensures var services := Build(config);
            match Chosen(world, services, c, |services|)
            case None => forall j :: 0 <= j < |services| ==> !AllDirect(world, services[j].rules, c)
            case Some(i) =>
              && i < |services| && AllDirect(world, services[i].rules, c)
              && forall j :: 0 <= j < |services| && AllDirect(world, services[j].rules, c) ==>
                 |services[j].rules| <= |services[i].rules|
  {
    BuildIncreasing(config);
    ChosenIsLast(world, Build(config), c, |Build(config)|);
    ChosenHasMost(world, Build(config), c);
  }

  lemma ChosenHasMost(world: World, services: seq<Service>, c: Content)
    requires Increasing(ServiceLess, services)
    ensures var r := Chosen(world, services, c, |services|);
            r.Some? ==>
              r.value < |services| && forall j :: 0 <= j < |services| && AllDirect(world, services[j].rules, c) ==>
                |services[j].rules| <= |services[r.value].rules|
  {
    var r := Chosen(world, services, c, |services|);
    ChosenIsLast(world, services, c, |services|);
    if r.Some? {
      forall j | 0 <= j < |services| && AllDirect(world, services[j].rules, c)
        ensures |services[j].rules| <= |services[r.value].rules|
      {
        if j < r.value {
          assert ServiceLess(services[j], services[r.value]);
          assert RequestLess(services[j].rules, services[r.value].rules);
        }
      }
    }
  }

  predicate HeaderEquality(r: Rule) {
    r.header != [] && r.kind == EqualsTo
  }

  /** A rule that requires a header to be equal to its input comes after all others. */
  lemma HeaderEqualityLast(a: Rule, b: Rule)
    requires HeaderEquality(b) && !HeaderEquality(a)
    ensures RuleLess(a, b) && !RuleLess(b, a)
  {
  }

  lemma LastRule(rules: seq<Rule>, k: nat)
    requires Increasing(RuleLess, rules) && k < |rules| && HeaderEquality(rules[k])
    ensures HeaderEquality(rules[|rules| - 1])
  {
    assert k < |rules| - 1 ==> RuleLess(rules[k], rules[|rules| - 1]);
  }

  /** Of two services with equally many rules that both match, one with a header-equality rule is preferred to one
      without. */
  lemma HeaderEqualityPreferred(world: World, config: seq<seq<Rule>>, c: Content, i: nat, j: nat, k: nat)
    requires var services := Build(config);
             && i < |services| && j < |services| && |services[i].rules| == |services[j].rules|
             && AllDirect(world, services[i].rules, c) && AllDirect(world, services[j].rules, c)
             && k < |services[i].rules| && HeaderEquality(services[i].rules[k])
             && forall r :: r in services[j].rules ==> !HeaderEquality(r)
    ensures Chosen(world, Build(config), c, |Build(config)|) != Some(j)
  {
    BuildIncreasing(config);
    var a, b := Build(config)[i], Build(config)[j];
    assert a in Build(config) && b in Build(config);
    RuleSetIncreasing(config[a.index]);
    LessWithout(a.rules, b.rules, k);
    LaterOf(Build(config), j, i);
    ChosenIsLast(world, Build(config), c, |Build(config)|);
  }

  lemma LessWithout(a: seq<Rule>, b: seq<Rule>, k: nat)
    requires Increasing(RuleLess, a) && |a| == |b| && k < |a| && HeaderEquality(a[k])
    requires forall r :: r in b ==> !HeaderEquality(r)
    ensures RequestLess(b, a)
  {
    LastRule(a, k);
    assert b[|b| - 1] in b;
    HeaderEqualityLast(b[|b| - 1], a[|a| - 1]);
  }

  lemma LaterOf(services: seq<Service>, j: nat, i: nat)
    requires Increasing(ServiceLess, services) && j < |services| && i < |services| &&
             ServiceLess(services[j], services[i])
    ensures j < i
  {
    ServiceOrder();
    assert !ServiceLess(services[j], services[j]);
  }

  // ---------------------------------------------------------------------------
  // The choice as it is made, with the memory.

  /** The first `n` rules are checked by their numbers from the greatest down, up to one that does not hold. */
  function CheckAll(world: World, ids: seq<nat>, rules: seq<Rule>, c: Content, n: nat, memo: map<nat, bool>)
    : (map<nat, bool>, bool)
    requires n <= |rules| == |ids|
  {
    if n == 0 then (memo, true)
    else
      var (after, answer) := Check(world, ids[n - 1], rules[n - 1], c, memo);
      if answer then CheckAll(world, ids, rules, c, n - 1, after) else (after, false)
  }

  /** Each rule of the services with a number. */
  predicate Paired(ids: seq<seq<nat>>, services: seq<Service>) {
    |ids| == |services| && forall i :: 0 <= i < |ids| ==> |ids[i]| == |services[i].rules|
  }

  /** The first `n` services are tried from the greatest down, up to one that matches. */
  function Picked(world: World, ids: seq<seq<nat>>, services: seq<Service>, c: Content, n: nat, memo: map<nat, bool>)
    : (map<nat, bool>, Option<nat>)
    requires n <= |services| && Paired(ids, services)
  {
    if n == 0 then (memo, None)
    else
      var rules := services[n - 1].rules;
      var (after, matched) := CheckAll(world, ids[n - 1], rules, c, |rules|, memo);
      if matched then (after, Some(n - 1)) else Picked(world, ids, services, c, n - 1, after)
  }

  /** The numbers of the rules of one service. */
  predicate NumbersOf(services: seq<Service>, rules: seq<Rule>, numbers: seq<nat>) {
    |numbers| == |rules| && forall j :: 0 <= j < |rules| ==> numbers[j] == IdOf(services, rules[j])
  }

  predicate AllNumbered(ids: seq<seq<nat>>, services: seq<Service>) {
    |ids| == |services| && forall i :: 0 <= i < |ids| ==> NumbersOf(services, services[i].rules, ids[i])
  }

  predicate RulesIn(rules: seq<Rule>, all: set<Rule>) {
    forall r :: r in rules ==> r in all
  }

  /** The first `n` rules hold. */
  predicate FirstHold(world: World, rules: seq<Rule>, c: Content, n: nat)
    requires n <= |rules|
  {
    n == 0 || (Direct(world, rules[n - 1], c) && FirstHold(world, rules, c, n - 1))
  }

  lemma {:induction false} AllHold(world: World, rules: seq<Rule>, c: Content, n: nat)
    requires n <= |rules|
    ensures FirstHold(world, rules, c, n) <==> forall i :: 0 <= i < n ==> Direct(world, rules[i], c)
  {
    if n > 0 {
      AllHold(world, rules, c, n - 1);
    }
  }

  lemma {:induction false} CheckAllRight(world: World, services: seq<Service>, all: set<Rule>, ids: seq<nat>,
                                         rules: seq<Rule>, c: Content, n: nat, memo: map<nat, bool>)
    requires Covers(services, all) && Apart(all) && Right(world, services, all, c, memo)
    requires n <= |rules| && RulesIn(rules, all) && NumbersOf(services, rules, ids)
    ensures var (after, matched) := CheckAll(world, ids, rules, c, n, memo);
            matched == FirstHold(world, rules, c, n) && Right(world, services, all, c, after)
  {
    if n > 0 {
      var r := rules[n - 1];
      assert r in rules && ids[n - 1] == IdOf(services, r);
      CheckRight(world, services, all, r, c, memo);
      var (after, answer) := Check(world, ids[n - 1], r, c, memo);
      if answer {
        CheckAllRight(world, services, all, ids, rules, c, n - 1, after);
      }
    }
  }

  lemma ServiceRight(world: World, services: seq<Service>, all: set<Rule>, ids: seq<nat>, rules: seq<Rule>, c: Content,
                     memo: map<nat, bool>)
    requires Covers(services, all) && Apart(all) && Right(world, services, all, c, memo)
    requires RulesIn(rules, all) && NumbersOf(services, rules, ids)
    ensures var (after, matched) := CheckAll(world, ids, rules, c, |rules|, memo);
            matched == AllDirect(world, rules, c) && Right(world, services, all, c, after)
  {
    CheckAllRight(world, services, all, ids, rules, c, |rules|, memo);
    AllHold(world, rules, c, |rules|);
  }

  /** With different keys, the service picked is the best one, whatever is remembered. */
  lemma {:induction false} PickedIsChosen(world: World, ids: seq<seq<nat>>, services: seq<Service>, all: set<Rule>,
                                          c: Content, n: nat, memo: map<nat, bool>)
    requires Covers(services, all) && Apart(all) && Right(world, services, all, c, memo)
    requires n <= |services| && AllNumbered(ids, services)
    requires forall i :: 0 <= i < |services| ==> RulesIn(services[i].rules, all)
    ensures var (after, r) := Picked(world, ids, services, c, n, memo);
            r == Chosen(world, services, c, n) && Right(world, services, all, c, after)
  {
    if n > 0 {
      var rules := services[n - 1].rules;
      ServiceRight(world, services, all, ids[n - 1], rules, c, memo);
      var (after, matched) := CheckAll(world, ids[n - 1], rules, c, |rules|, memo);
      if !matched {
        PickedIsChosen(world, ids, services, all, c, n - 1, after);
      }
    }
  }

  // Where two keys are the same: a service for RULE_A, and one for RULE_AB and RULE_B.

  function Coinciding(): seq<seq<Rule>> {
    [[RULE_A], [RULE_AB, RULE_B]]
  }

  lemma CoincidingServices()
    ensures Build(Coinciding()) == [Service([RULE_A], 0), Service([RULE_AB, RULE_B], 1)]
    ensures Within(Build(Coinciding()), RULE_A) && Within(Build(Coinciding()), RULE_AB)
  {
    var config := Coinciding();
    var first, second := Service([RULE_A], 0), Service([RULE_AB, RULE_B], 1);
    SingleSet(RULE_A);
    SingleSet(RULE_AB);
    RuleABFirst();
    assert [RULE_AB, RULE_B][..1] == [RULE_AB];
    assert RuleSet([RULE_AB, RULE_B]) == Insert(RuleLess, [RULE_AB], RULE_B) == [RULE_AB, RULE_B];
    assert config[..1] == [[RULE_A]] && config[..1][..0] == [];
    assert Build(config[..1]) == Insert(ServiceLess, [], first) == [first];
    assert ServiceLess(first, second) && !ServiceLess(second, first);
    assert [first][1..] == [];
    assert Build(config) == Insert(ServiceLess, [first], second) == [first, second];
    assert RULE_A in first.rules && RULE_AB in second.rules;
    assert Build(config)[0] == first && Build(config)[1] == second;
  }

  lemma SingleSet(r: Rule)
    ensures RuleSet([r]) == [r]
  {
    assert [r][..0] == [];
    assert RuleSet([r]) == Insert(RuleLess, [], r);
  }

  lemma RuleABFirst()
    ensures RuleLess(RULE_AB, RULE_B) && !RuleLess(RULE_B, RULE_AB)
  {
    assert Key(RULE_AB) == [48, 97, 98, 99] && Key(RULE_B) == [48, 98, 120];
    assert Key(RULE_AB)[1..] == [97, 98, 99] && Key(RULE_B)[1..] == [98, 120];
  }

  /** In this configuration a row of checks gets a wrong answer. */
  lemma WrongAnswer(world: World)
    ensures var c := Content([([97], [98, 99])], []);
            Checks(world, Build(Coinciding()), [RULE_A, RULE_AB], c, map[]) == [true, true] &&
            !Direct(world, RULE_AB, c)
  {
    CoincidingServices();
    KeysCoincide(world);
    MemoDisagrees(world, Build(Coinciding()), RULE_A, RULE_AB);
  }

  // A message for the first service: it has the header of RULE_A, and that of RULE_B.
  const MESSAGE := Content([([97], [98, 99]), ([98], [120])], [])

  /** The first service matches it, and it is given no service: the answer to RULE_AB, remembered when the second
      service was tried, is taken for the answer to RULE_A. */
  lemma WrongChoice(world: World, ids: seq<seq<nat>>)
    requires AllNumbered(ids, Build(Coinciding()))
    ensures var services := Build(Coinciding());
            |services| == 2 && Chosen(world, services, MESSAGE, 2) == Some(0) &&
            Picked(world, ids, services, MESSAGE, 2, map[]).1 == None
  {
    var services := Build(Coinciding());
    CoincidingServices();
    CoincidingDirect(world);
    assert NumbersOf(services, services[0].rules, ids[0]) && NumbersOf(services, services[1].rules, ids[1]);
    CoincidingNumbers();
    CoincidingPicked(world, ids, services);
    ChosenNext(world, services, MESSAGE, 1);
    ChosenNext(world, services, MESSAGE, 0);
  }

  /** RULE_B holds and RULE_AB does not, which is then remembered of RULE_A. */
  lemma CoincidingPicked(world: World, ids: seq<seq<nat>>, services: seq<Service>)
    requires Paired(ids, services) && services == [Service([RULE_A], 0), Service([RULE_AB, RULE_B], 1)]
    requires ids[0][0] == ids[1][0] != ids[1][1]
    ensures Picked(world, ids, services, MESSAGE, 2, map[]).1 == None
  {
    CoincidingDirect(world);
    var a, b := ids[1][0], ids[1][1];
    var rules, first, second := services[1].rules, map[b := true], map[b := true][a := false];
    assert Check(world, b, RULE_B, MESSAGE, map[]) == (first, true);
    assert Check(world, a, RULE_AB, MESSAGE, first) == (second, false);
    assert Check(world, a, RULE_A, MESSAGE, second) == (second, false);
    assert CheckAll(world, ids[1], rules, MESSAGE, 1, first) == (second, false);
    assert CheckAll(world, ids[1], rules, MESSAGE, 2, map[]) == (second, false);
    assert CheckAll(world, ids[0], [RULE_A], MESSAGE, 1, second) == (second, false);
    assert Picked(world, ids, services, MESSAGE, 1, second).1 == None;
  }

  lemma ChosenNext(world: World, services: seq<Service>, c: Content, i: nat)
    requires i < |services|
    ensures Chosen(world, services, c, i + 1) == if AllDirect(world, services[i].rules, c) then Some(i)
            else Chosen(world, services, c, i)
  {
  }

  lemma CoincidingNumbers()
    ensures var services := Build(Coinciding());
            IdOf(services, RULE_A) == IdOf(services, RULE_AB) != IdOf(services, RULE_B)
  {
    var services := Build(Coinciding());
    CoincidingServices();
    assert services[1].rules[1] == RULE_B;
    RuleABFirst();
    OneKey();
    IdsIdentify(services, RULE_A, RULE_AB);
    IdsIdentify(services, RULE_AB, RULE_B);
  }

  lemma CoincidingDirect(world: World)
    ensures Direct(world, RULE_A, MESSAGE) && !Direct(world, RULE_AB, MESSAGE) && Direct(world, RULE_B, MESSAGE)
  {
    assert MESSAGE.headers[0] == ([97], [98, 99]) && MESSAGE.headers[1] == ([98], [120]);
  }

  // ---------------------------------------------------------------------------
  // The order of the configuration does not matter.

  function RulesOf(services: seq<Service>): (r: seq<seq<Rule>>)
    ensures |r| == |services| && forall i :: 0 <= i < |r| ==> r[i] == services[i].rules
  {
    seq(|services|, i requires 0 <= i < |services| => services[i].rules)
  }

  lemma RulesOfIncreasing(services: seq<Service>)
    requires Increasing(ServiceLess, services)
    ensures Increasing(RequestLess, RulesOf(services))
  {
    forall i, j | 0 <= i < j < |services| ensures RequestLess(RulesOf(services)[i], RulesOf(services)[j]) {
      assert ServiceLess(services[i], services[j]);
    }
  }

  /** With different keys, equivalent sets of rules are equal. */
  lemma SameSets(a: seq<Rule>, b: seq<Rule>, all: set<Rule>)
    requires Apart(all) && (forall r :: r in a || r in b ==> r in all) && Same(RequestLess, a, b)
    ensures a == b
  {
    RequestSame(a, b);
    forall i | 0 <= i < |a| ensures a[i] == b[i] {
      assert a[i] in a && b[i] in b && Same(RuleLess, a[i], b[i]);
    }
  }

  /** Every service of the configuration is represented. */
  lemma {:induction false} BuildHas(config: seq<seq<Rule>>, s: Service, i: nat)
    requires i < |config| && s.rules == RuleSet(config[i])
    ensures Has(ServiceLess, Build(config), s)
  {
    var last := |config| - 1;
    var init := config[..last];
    ServiceOrder();
    BuildIncreasing(init);
    InsertHas(ServiceLess, Build(init), Service(RuleSet(config[last]), last), s);
    if i < last {
      BuildHas(init, s, i);
    } else {
      EqualRules(Service(RuleSet(config[last]), last), s);
    }
  }

  lemma EqualRules(s: Service, t: Service)
    requires s.rules == t.rules
    ensures Same(ServiceLess, s, t)
  {
    RequestOrder();
  }

  /** With different keys, the sets of rules among the services are those of the configuration. */
  lemma BuildMembers(config: seq<seq<Rule>>, all: set<Rule>, x: seq<Rule>)
    requires Apart(all) && Uses(config, all)
    ensures x in RulesOf(Build(config)) <==> exists i :: 0 <= i < |config| && x == RuleSet(config[i])
  {
    BuildIncreasing(config);
    var services := Build(config);
    if x in RulesOf(services) {
      var k :| 0 <= k < |services| && RulesOf(services)[k] == x;
      assert services[k] in services;
    }
    if i :| 0 <= i < |config| && x == RuleSet(config[i]) {
      BuildHas(config, Service(x, i), i);
      var k :| 0 <= k < |services| && Same(ServiceLess, services[k], Service(x, i));
      assert services[k] in services;
      RuleSetIncreasing(config[i]);
      RuleSetIncreasing(config[services[k].index]);
      assert Same(RequestLess, services[k].rules, x);
      SameSets(services[k].rules, x, all);
      assert RulesOf(services)[k] == x;
    }
  }

  /** Each service of `a` is in `b`, with the same rules in any order. */
  ghost predicate Included(a: seq<seq<Rule>>, b: seq<seq<Rule>>) {
    forall i :: 0 <= i < |a| ==> exists j :: 0 <= j < |b| && SameRules(a[i], b[j])
  }

  ghost predicate SameRules(a: seq<Rule>, b: seq<Rule>) {
    forall r :: r in a <==> r in b
  }

  lemma SameRuleSets(a: seq<Rule>, b: seq<Rule>, all: set<Rule>)
    requires Apart(all) && (forall r :: r in a || r in b ==> r in all) && SameRules(a, b)
    ensures RuleSet(a) == RuleSet(b)
  {
    RuleOrder();
    RuleSetIncreasing(a);
    RuleSetIncreasing(b);
    forall r ensures r in RuleSet(a) <==> r in RuleSet(b) {
      RuleSetMembers(a, all, r);
      RuleSetMembers(b, all, r);
    }
    OneOrder(RuleLess, RuleSet(a), RuleSet(b));
  }

  lemma IncludedMembers(a: seq<seq<Rule>>, b: seq<seq<Rule>>, all: set<Rule>, x: seq<Rule>)
    requires Apart(all) && Uses(a, all) && Uses(b, all) && Included(a, b) && x in RulesOf(Build(a))
    ensures x in RulesOf(Build(b))
  {
    BuildMembers(a, all, x);
    BuildMembers(b, all, x);
    var i :| 0 <= i < |a| && x == RuleSet(a[i]);
    var j :| 0 <= j < |b| && SameRules(a[i], b[j]);
    SameRuleSets(a[i], b[j], all);
  }

  lemma {:induction false} SameChosen(world: World, a: seq<Service>, b: seq<Service>, c: Content, n: nat)
    requires n <= |a| && RulesOf(a) == RulesOf(b)
    ensures n <= |b| && Chosen(world, a, c, n) == Chosen(world, b, c, n)
  {
    assert |a| == |RulesOf(a)| == |RulesOf(b)| == |b|;
    if n > 0 {
      assert a[n - 1].rules == RulesOf(a)[n - 1] == RulesOf(b)[n - 1] == b[n - 1].rules;
      SameChosen(world, a, b, c, n - 1);
    }
  }

  lemma SameServices(a: seq<seq<Rule>>, b: seq<seq<Rule>>, all: set<Rule>)
    requires Apart(all) && Uses(a, all) && Uses(b, all) && Included(a, b) && Included(b, a)
    ensures RulesOf(Build(a)) == RulesOf(Build(b))
  {
    RequestOrder();
    BuildIncreasing(a);
    BuildIncreasing(b);
    RulesOfIncreasing(Build(a));
    RulesOfIncreasing(Build(b));
    forall x ensures x in RulesOf(Build(a)) <==> x in RulesOf(Build(b)) {
      if x in RulesOf(Build(a)) {
        IncludedMembers(a, b, all, x);
      }
      if x in RulesOf(Build(b)) {
        IncludedMembers(b, a, all, x);
      }
    }
    OneOrder(RequestLess, RulesOf(Build(a)), RulesOf(Build(b)));
  }

  /**
   * With different keys, two configurations of the same services, in any order of services and rules, choose
   * the same set of rules for every message.
   */
  lemma OrderDoesNotMatter(world: World, a: seq<seq<Rule>>, b: seq<seq<Rule>>, all: set<Rule>, c: Content)
    requires Apart(all) && Uses(a, all) && Uses(b, all) && Included(a, b) && Included(b, a)
    ensures RulesOf(Build(a)) == RulesOf(Build(b))
    ensures |Build(a)| == |Build(b)| && Chosen(world, Build(a), c, |Build(a)|) == Chosen(world, Build(b), c, |Build(b)|)
  {
    SameServices(a, b, all);
    SameChosen(world, Build(a), Build(b), c, |Build(a)|);
    SameChosen(world, Build(b), Build(a), c, |Build(b)|);
  }
}
