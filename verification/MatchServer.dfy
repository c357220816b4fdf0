/** The matcher as it runs: services and numbers built once, and a message that remembers answers by number. */
module MatchServer {
  import opened Bytes
  import opened OrderedSets
  import opened Rules
  import opened Matcher

  class RequestMessage {
    const headers: seq<(text, text)>
    const payload: text
    // the payload still to be parsed, or the text that was parsed
    var jsonSource: Option<text>
    var jsonPayload: text
    var matchResult: map<nat, bool>

    function Whole(): Content {
      Content(headers, payload)
    }

    /** The document, once there is one, is the payload's. */
    ghost predicate Valid()
      reads this
    {
      match jsonSource
      case Some(source) => source == payload
      case None => jsonPayload == payload
    }

    constructor (headers: seq<(text, text)>, payload: text)
      ensures this.headers == headers && this.payload == payload && Valid() && matchResult == map[]
    {
      this.headers, this.payload := headers, payload;
      jsonSource, jsonPayload, matchResult := Some(payload), [], map[];
    }

    method DecodeJsonIfNotYet()
      requires Valid()
      modifies this`jsonSource, this`jsonPayload
      ensures Valid() && jsonSource == None
    {
      if jsonSource.Some? {
        jsonPayload := jsonSource.value;
        jsonSource := None;
      }
    }

    /** Some header of this name satisfies the rule. */
    method MatchHeaders(world: World, r: Rule) returns (matched: bool)
      requires r.header != []
      ensures matched == Direct(world, r, Whole())
    {
      matched := false;
      for i := 0 to |headers|
        invariant matched == exists k ::
                               0 <= k < i && headers[k].0 == r.header && Satisfied(world, r.kind, headers[k].1, r.input)
      {
        if headers[i].0 == r.header {
          var m := MatchText(world, r.kind, headers[i].1, r.input);
          if m {
            matched := true;
            return;
          }
        }
      }
    }

    /** `Match_Rule::match` on a message. */
    method MatchRule(world: World, r: Rule, id: nat) returns (matched: bool)
      requires Valid()
      modifies this
      ensures Valid() && (matchResult, matched) == Check(world, id, r, Whole(), old(matchResult))
    {
      if id in matchResult {
        return matchResult[id];
      }
      if r.header != [] {
        matched := MatchHeaders(world, r);
      } else if r.pointer != [] {
        DecodeJsonIfNotYet();
        matched := MatchText(world, r.kind, world.json(jsonPayload, r.pointer), r.input);
      } else {
        matched := MatchText(world, r.kind, payload, r.input);
      }
      matchResult := matchResult[id := matched];
    }
  }

  /** All rules of the services. */
  function Universe(services: seq<Service>): set<Rule> {
    set s, r | s in services && r in s.rules :: r
  }

  lemma UniverseCovered(services: seq<Service>)
    ensures Covers(services, Universe(services))
    ensures forall i :: 0 <= i < |services| ==> RulesIn(services[i].rules, Universe(services))
  {
    forall r | r in Universe(services) ensures Within(services, r) {
      var s :| s in services && r in s.rules;
      var i :| 0 <= i < |services| && services[i] == s;
    }
    forall i, r | 0 <= i < |services| && r in services[i].rules ensures r in Universe(services) {
      assert services[i] in services;
    }
  }

  class Server {
    var services: seq<Service>
    var ids: seq<seq<nat>>

    /** Every rule has its number. */
    ghost predicate Numbered()
      reads this
    {
      AllNumbered(ids, services)
    }

    constructor (config: seq<seq<Rule>>)
      ensures services == Build(config) && Numbered()
    {
      services, ids := [], [];
      new;
      for index := 0 to |config|
        invariant services == Build(config[..index])
      {
        assert config[..index + 1][..index] == config[..index];
        services := Insert(ServiceLess, services, Service(RuleSet(config[index]), index));
      }
      assert config[..|config|] == config;
      BuildMatchRuleUniqueId();
    }

    /** The set of all rules. */
    method CollectRules() returns (all: seq<Rule>)
      ensures all == AllRules(services)
    {
      all := [];
      for i := 0 to |services|
        invariant all == AllRules(services[..i])
      {
        assert services[..i + 1][..i] == services[..i];
        all := CollectFrom(all, services[i].rules);
      }
      assert services[..|services|] == services;
    }

    method CollectFrom(before: seq<Rule>, rules: seq<Rule>) returns (all: seq<Rule>)
      ensures all == Collected(before, rules)
    {
      all := before;
      for j := 0 to |rules|
        invariant all == Collected(before, rules[..j])
      {
        assert rules[..j + 1][..j] == rules[..j];
        all := Insert(RuleLess, all, rules[j]);
      }
      assert rules[..|rules|] == rules;
    }

    method NumberRules(all: seq<Rule>, rules: seq<Rule>) returns (numbers: seq<nat>)
      requires all == AllRules(services)
      ensures NumbersOf(services, rules, numbers)
    {
      numbers := [];
      for j := 0 to |rules|
        invariant |numbers| == j && forall k :: 0 <= k < j ==> numbers[k] == IdOf(services, rules[k])
      {
        numbers := numbers + [Place(RuleLess, all, rules[j])];
      }
    }

    method BuildMatchRuleUniqueId()
      modifies this`ids
      ensures Numbered()
    {
      var all := CollectRules();
      ids := [];
      for i := 0 to |services|
        invariant |ids| == i && forall k :: 0 <= k < i ==> NumbersOf(services, services[k].rules, ids[k])
      {
        var numbers := NumberRules(all, services[i].rules);
        ids := ids + [numbers];
      }
    }

    /** The rules are checked from the greatest down, up to the first that does not hold. */
    method MatchRequest(world: World, i: nat, msg: RequestMessage) returns (matched: bool)
      requires Paired(ids, services) && i < |services| && msg.Valid()
      modifies msg
      ensures msg.Valid()
      ensures var rules := services[i].rules;
              (msg.matchResult, matched) ==
              CheckAll(world, ids[i], rules, msg.Whole(), |rules|, old(msg.matchResult))
    {
      var rules, numbers := services[i].rules, ids[i];
      ghost var whole := CheckAll(world, ids[i], rules, msg.Whole(), |rules|, msg.matchResult);
      var j := |rules|;
      while j > 0
        invariant 0 <= j <= |rules| && msg.Valid()
        invariant whole == CheckAll(world, ids[i], rules, msg.Whole(), j, msg.matchResult)
      {
        j := j - 1;
        var m := msg.MatchRule(world, rules[j], numbers[j]);
        if !m {
          return false;
        }
      }
      return true;
    }

    /**
     * The services are tried from the greatest down. When no two different rules share a key, the result is the
     * best service for the message.
     */
    method GetMatchedRequest(world: World, msg: RequestMessage) returns (r: Option<nat>)
      requires Numbered() && msg.Valid()
      modifies msg
      ensures msg.Valid()
      ensures (msg.matchResult, r) == Picked(world, ids, services, msg.Whole(), |services|, old(msg.matchResult))
      ensures
        && Apart(Universe(services))
        && old(Right(world, services, Universe(services), msg.Whole(), msg.matchResult)) ==>
                && r == Chosen(world, services, msg.Whole(), |services|)
                && Right(world, services, Universe(services), msg.Whole(), msg.matchResult)
    {
      ghost var all, before := Universe(services), msg.matchResult;
      r := TryServices(world, msg);
      UniverseCovered(services);
      if Apart(all) && Right(world, services, all, msg.Whole(), before) {
        PickedIsChosen(world, ids, services, all, msg.Whole(), |services|, before);
      }
    }

    method TryServices(world: World, msg: RequestMessage) returns (r: Option<nat>)
      requires Paired(ids, services) && msg.Valid()
      modifies msg
      ensures msg.Valid()
      ensures (msg.matchResult, r) == Picked(world, ids, services, msg.Whole(), |services|, old(msg.matchResult))
    {
      ghost var whole := Picked(world, ids, services, msg.Whole(), |services|, msg.matchResult);
      var i := |services|;
      while i > 0
        invariant 0 <= i <= |services| && msg.Valid()
        invariant whole == Picked(world, ids, services, msg.Whole(), i, msg.matchResult)
      {
        i := i - 1;
        var matched := MatchRequest(world, i, msg);
        if matched {
          return Some(i);
        }
      }
      return None;
    }
  }
}
