/** Match rules and requests: their two orders, and what it means for a message to satisfy a rule. */
module Rules {
  import opened Bytes
  import opened OrderedSets

  type text = seq<byte>

  datatype Kind = EqualsTo | StartsWith | EndsWith | Contains | RegexMatch

  /** A rule about a header, or about the payload when the header name is empty. */
  datatype Rule = Rule(kind: Kind, header: text, pointer: text, input: text)

  // ---------------------------------------------------------------------------
  // The order of rules.

  /** `operator<` of strings. */
  predicate TextLess(a: text, b: text)
    decreases |a|
  {
    b != [] && (a == [] || a[0] < b[0] || (a[0] == b[0] && TextLess(a[1..], b[1..])))
  }

  lemma {:induction false} TextTotal(a: text, b: text)
    ensures Same(TextLess, a, b) <==> a == b
    decreases |a|
  {
    if a != [] && b != [] {
      TextTotal(a[1..], b[1..]);
      assert a == [a[0]] + a[1..] && b == [b[0]] + b[1..];
    }
  }

  lemma {:induction false} TextTransitive(a: text, b: text, c: text)
    requires TextLess(a, b) && TextLess(b, c)
    ensures TextLess(a, c)
    decreases |a|
  {
    if a != [] && a[0] == b[0] && b[0] == c[0] {
      TextTransitive(a[1..], b[1..], c[1..]);
    }
  }

  /** The number of the kind, as a character. */
  function Digit(kind: Kind): byte {
    match kind
    case EqualsTo => 48
    case StartsWith => 49
    case EndsWith => 50
    case Contains => 51
    case RegexMatch => 52
  }

  /** The parts of a rule, one behind another without a separator. */
  function Key(r: Rule): text {
    [Digit(r.kind)] + r.header + r.pointer + r.input
  }

  /** Header rules come after payload rules, equality after the other kinds; the rest is decided by the key. */
  predicate RuleLess(a: Rule, b: Rule) {
    if a.header != [] && b.header == [] then false
    else if a.header == [] && b.header != [] then true
    else if a.kind == EqualsTo && b.kind != EqualsTo then false
    else if b.kind == EqualsTo && a.kind != EqualsTo then true
    else TextLess(Key(a), Key(b))
  }

  /** Two rules are equivalent when both or neither are about a header and their keys are the same. */
  lemma RuleSame(a: Rule, b: Rule)
    ensures Same(RuleLess, a, b) <==> (a.header == [] <==> b.header == []) && Key(a) == Key(b)
  {
    TextTotal(Key(a), Key(b));
    assert Key(a)[0] == Digit(a.kind) && Key(b)[0] == Digit(b.kind);
  }

  /** Payload rules come before header rules, within each the other kinds before equality, and those by kind. */
  lemma KindOrder(a: Rule, b: Rule)
    ensures a.header == [] && b.header != [] ==> RuleLess(a, b)
    ensures (a.header == [] <==> b.header == []) && a.kind != EqualsTo && b.kind == EqualsTo ==> RuleLess(a, b)
    ensures (a.header == [] <==> b.header == []) &&
            ((a.kind == StartsWith && b.kind in {EndsWith, Contains, RegexMatch}) ||
             (a.kind == EndsWith && b.kind in {Contains, RegexMatch}) ||
               (a.kind == Contains && b.kind == RegexMatch)) ==>
              RuleLess(a, b)
  {
    assert Key(a)[0] == Digit(a.kind) && Key(b)[0] == Digit(b.kind);
  }

  lemma RuleIrreflexive(a: Rule)
    ensures !RuleLess(a, a)
  {
    TextTotal(Key(a), Key(a));
  }

  lemma RuleTransitive(a: Rule, b: Rule, c: Rule)
    requires RuleLess(a, b) && RuleLess(b, c)
    ensures RuleLess(a, c)
  {
    if TextLess(Key(a), Key(b)) && TextLess(Key(b), Key(c)) {
      TextTransitive(Key(a), Key(b), Key(c));
    }
  }

  lemma RuleBetween(a: Rule, b: Rule, c: Rule)
    requires RuleLess(a, c)
    ensures RuleLess(a, b) || RuleLess(b, c)
  {
    TextTotal(Key(a), Key(b));
    if TextLess(Key(b), Key(a)) && TextLess(Key(a), Key(c)) {
      TextTransitive(Key(b), Key(a), Key(c));
    }
  }

  lemma RuleOrder()
    ensures Order(RuleLess)
  {
    forall a ensures !RuleLess(a, a) {
      RuleIrreflexive(a);
    }
    forall a, b, c | RuleLess(a, b) && RuleLess(b, c) ensures RuleLess(a, c) {
      RuleTransitive(a, b, c);
    }
    forall a, b, c | RuleLess(a, c) ensures RuleLess(a, b) || RuleLess(b, c) {
      RuleBetween(a, b, c);
    }
  }

  // ---------------------------------------------------------------------------
  // The order of requests, each given by its rules in increasing order.

  /** Fewer rules come first; as many rules are compared from the greatest down. */
  predicate RequestLess(a: seq<Rule>, b: seq<Rule>) {
    |a| < |b| || (|a| == |b| && BackLess(RuleLess, a, b, |a|))
  }

  method RequestBefore(a: seq<Rule>, b: seq<Rule>) returns (r: bool)
    ensures r == RequestLess(a, b)
  {
    if |a| < |b| {
      return true;
    } else if |a| > |b| {
      return false;
    }
    var i := |a|;
    while i > 0
      invariant 0 <= i <= |a| && BackLess(RuleLess, a, b, i) == BackLess(RuleLess, a, b, |a|)
    {
      if RuleLess(a[i - 1], b[i - 1]) {
        return true;
      } else if RuleLess(b[i - 1], a[i - 1]) {
        return false;
      }
      i := i - 1;
    }
    return false;
  }

  lemma RequestOrder()
    ensures Order(RequestLess)
  {
    RuleOrder();
    forall a ensures !RequestLess(a, a) {
      BackIrreflexive(RuleLess, a, |a|);
    }
    forall a, b, c | RequestLess(a, b) && RequestLess(b, c) ensures RequestLess(a, c) {
      if |a| == |b| == |c| {
        BackTransitive(RuleLess, a, b, c, |a|);
      }
    }
    forall a, b, c | RequestLess(a, c) ensures RequestLess(a, b) || RequestLess(b, c) {
      if |a| == |b| == |c| {
        BackBetween(RuleLess, a, b, c, |a|);
      }
    }
  }

  /** Two requests are equivalent when their rules are, one by one. */
  lemma RequestSame(a: seq<Rule>, b: seq<Rule>)
    ensures Same(RequestLess, a, b) <==> |a| == |b| && forall i :: 0 <= i < |a| ==> Same(RuleLess, a[i], b[i])
  {
    if |a| == |b| {
      BackSame(RuleLess, a, b, |a|);
    }
  }

  // ---------------------------------------------------------------------------
  // Satisfying a rule.

  /** What is not part of the model: regular expressions, and values in a JSON document by pointer. */
  datatype World = World(regex: (text, text) -> bool, json: (text, text) -> text)

  /** A message: its headers, where a name can come more than once, and its payload. */
  datatype Content = Content(headers: seq<(text, text)>, payload: text)

  predicate OccursAt(subject: text, input: text, i: nat) {
    i + |input| <= |subject| && subject[i..i + |input|] == input
  }

  predicate Satisfied(world: World, kind: Kind, subject: text, input: text) {
    match kind
    case EqualsTo => subject == input
    case StartsWith => OccursAt(subject, input, 0)
    case EndsWith => |input| <= |subject| && OccursAt(subject, input, |subject| - |input|)
    case Contains => exists i: nat :: i <= |subject| && OccursAt(subject, input, i)
    case RegexMatch => world.regex(subject, input)
  }

  lemma OccursMeans(subject: text, input: text, i: nat)
    requires OccursAt(subject, input, i)
    ensures subject == subject[..i] + input + subject[i + |input|..]
  {
    assert subject == subject[..i] + subject[i..i + |input|] + subject[i + |input|..];
  }

  lemma OccursBehind(front: text, input: text, rest: text)
    ensures OccursAt(front + input + rest, input, |front|)
  {
  }

  lemma EqualsMeans(world: World, subject: text, input: text)
    ensures Satisfied(world, EqualsTo, subject, input) <==> subject == input
  {
  }

  lemma StartsWithMeans(world: World, subject: text, input: text)
    ensures Satisfied(world, StartsWith, subject, input) <==> exists rest :: subject == input + rest
  {
    if Satisfied(world, StartsWith, subject, input) {
      assert subject == input + subject[|input|..];
    }
    if rest :| subject == input + rest {
      assert subject[..|input|] == input;
    }
  }

  lemma EndsWithMeans(world: World, subject: text, input: text)
    ensures Satisfied(world, EndsWith, subject, input) <==> exists front :: subject == front + input
  {
    if Satisfied(world, EndsWith, subject, input) {
      assert subject == subject[..|subject| - |input|] + input;
    }
    if front :| subject == front + input {
      assert subject[|front|..] == input;
    }
  }

  lemma ContainsMeans(world: World, subject: text, input: text)
    ensures Satisfied(world, Contains, subject, input) <==> exists front, rest :: subject == front + input + rest
  {
    if Satisfied(world, Contains, subject, input) {
      var i: nat :| i <= |subject| && OccursAt(subject, input, i);
      OccursMeans(subject, input, i);
    }
    if front, rest :| subject == front + input + rest {
      OccursBehind(front, input, rest);
    }
  }

  lemma SatisfiedMeans(world: World, kind: Kind, subject: text, input: text)
    ensures kind == EqualsTo ==> (Satisfied(world, kind, subject, input) <==> subject == input)
    ensures kind == StartsWith ==> (Satisfied(world, kind, subject, input) <==> exists rest :: subject == input + rest)
    ensures kind == EndsWith ==> (Satisfied(world, kind, subject, input) <==> exists front :: subject == front + input)
    ensures kind == Contains ==>
              (Satisfied(world, kind, subject, input) <==> exists front, rest :: subject == front + input + rest)
    ensures kind == RegexMatch ==> (Satisfied(world, kind, subject, input) <==> world.regex(subject, input))
  {
    match kind
    case EqualsTo => EqualsMeans(world, subject, input);
    case StartsWith => StartsWithMeans(world, subject, input);
    case EndsWith => EndsWithMeans(world, subject, input);
    case Contains => ContainsMeans(world, subject, input);
    case RegexMatch =>
  }

  /** What a rule says of a message, without any memory. */
  predicate Direct(world: World, r: Rule, c: Content) {
    if r.header != [] then
      exists i :: 0 <= i < |c.headers| && c.headers[i].0 == r.header &&
        Satisfied(world, r.kind, c.headers[i].1, r.input)
    else if r.pointer != [] then Satisfied(world, r.kind, world.json(c.payload, r.pointer), r.input)
    else Satisfied(world, r.kind, c.payload, r.input)
  }

  /** A header rule holds when some header of its name has a value that is equal to the input, or is the input with
      something behind it, before it or around it. */
  lemma HeaderMeans(world: World, r: Rule, c: Content)
    requires r.header != []
    ensures r.kind == EqualsTo ==> (Direct(world, r, c) <==> (r.header, r.input) in c.headers)
    ensures r.kind == StartsWith ==> (Direct(world, r, c) <==> exists rest :: (r.header, r.input + rest) in c.headers)
    ensures r.kind == EndsWith ==> (Direct(world, r, c) <==> exists front :: (r.header, front + r.input) in c.headers)
    ensures r.kind == Contains ==>
              (Direct(world, r, c) <==> exists front, rest :: (r.header, front + r.input + rest) in c.headers)
    ensures r.kind == RegexMatch ==>
              (Direct(world, r, c) <==> exists value :: (r.header, value) in c.headers && world.regex(value, r.input))
  {
    HeaderSubject(world, r, c);
    if Direct(world, r, c) {
      var value :| (r.header, value) in c.headers && Satisfied(world, r.kind, value, r.input);
      SatisfiedMeans(world, r.kind, value, r.input);
    }
    if r.kind == StartsWith {
      forall rest | (r.header, r.input + rest) in c.headers ensures Direct(world, r, c) {
        StartsWithMeans(world, r.input + rest, r.input);
      }
    } else if r.kind == EndsWith {
      forall front | (r.header, front + r.input) in c.headers ensures Direct(world, r, c) {
        EndsWithMeans(world, front + r.input, r.input);
      }
    } else if r.kind == Contains {
      forall front, rest | (r.header, front + r.input + rest) in c.headers ensures Direct(world, r, c) {
        ContainsMeans(world, front + r.input + rest, r.input);
      }
    }
  }

  lemma HeaderSubject(world: World, r: Rule, c: Content)
    requires r.header != []
    ensures Direct(world, r, c) <==>
            exists value :: (r.header, value) in c.headers && Satisfied(world, r.kind, value, r.input)
  {
    if Direct(world, r, c) {
      var i :| 0 <= i < |c.headers| && c.headers[i].0 == r.header && Satisfied(world, r.kind, c.headers[i].1, r.input);
      assert c.headers[i] == (r.header, c.headers[i].1);
    }
    if value :| (r.header, value) in c.headers && Satisfied(world, r.kind, value, r.input) {
      var i :| 0 <= i < |c.headers| && c.headers[i] == (r.header, value);
    }
  }

  /** A payload rule looks at the value its pointer leads to, or at the whole payload if it has none. */
  lemma PayloadMeans(world: World, r: Rule, c: Content)
    requires r.header == []
    ensures var subject := if r.pointer != [] then world.json(c.payload, r.pointer) else c.payload;
            && (r.kind == EqualsTo ==> (Direct(world, r, c) <==> subject == r.input))
            && (r.kind == StartsWith ==> (Direct(world, r, c) <==> exists rest :: subject == r.input + rest))
            && (r.kind == EndsWith ==> (Direct(world, r, c) <==> exists front :: subject == front + r.input))
            && (r.kind == Contains ==> (Direct(world, r, c) <==>
               exists front, rest :: subject == front + r.input + rest))
            && (r.kind == RegexMatch ==> (Direct(world, r, c) <==> world.regex(subject, r.input)))
  {
    SatisfiedMeans(world, r.kind, if r.pointer != [] then world.json(c.payload, r.pointer) else c.payload, r.input);
  }

  predicate AllDirect(world: World, rules: seq<Rule>, c: Content) {
    forall i :: 0 <= i < |rules| ==> Direct(world, rules[i], c)
  }

  /** `std::string::find`: the first place where the input occurs, or none. */
  method FindText(subject: text, input: text) returns (r: Option<nat>)
    ensures r.Some? ==> r.value <= |subject| && OccursAt(subject, input, r.value) && forall j: nat :: j < r.value ==>
            !OccursAt(subject, input, j)
    ensures r.None? ==> forall j: nat :: !OccursAt(subject, input, j)
  {
    var i := 0;
    while i + |input| <= |subject|
      invariant forall j: nat :: j < i ==> !OccursAt(subject, input, j)
    {
      if subject[i..i + |input|] == input {
        return Some(i);
      }
      i := i + 1;
    }
    return None;
  }

  /** `Match_Rule::match` on a string. */
  method MatchText(world: World, kind: Kind, subject: text, input: text) returns (r: bool)
    ensures r == Satisfied(world, kind, subject, input)
    ensures kind == EqualsTo ==> (r <==> subject == input)
    ensures kind == StartsWith ==> (r <==> exists rest :: subject == input + rest)
    ensures kind == EndsWith ==> (r <==> exists front :: subject == front + input)
    ensures kind == Contains ==> (r <==> exists front, rest :: subject == front + input + rest)
    ensures kind == RegexMatch ==> (r <==> world.regex(subject, input))
  {
    SatisfiedMeans(world, kind, subject, input);
    match kind
    case EqualsTo => return subject == input;
    case StartsWith =>
      var i := FindText(subject, input);
      return i == Some(0);
    case EndsWith => return |subject| >= |input| && subject[|subject| - |input|..] == input;
    case Contains =>
      var i := FindText(subject, input);
      return i != None;
    case RegexMatch => return world.regex(subject, input);
  }
}
