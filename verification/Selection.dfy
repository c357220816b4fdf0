/** The choice of a response by weight. */
module Selection {

  /** The weights before the given response, added up. */
  function Before(weights: seq<nat>, i: nat): nat
    requires i <= |weights|
  {
    if i == 0 then 0 else Before(weights, i - 1) + weights[i - 1]
  }

  function Total(weights: seq<nat>): nat {
    Before(weights, |weights|)
  }

  /** An entry of the distribution map: the running total, and the response it belongs to. */
  datatype Entry = Entry(bound: nat, index: nat)

  /** The entries after the first `n` responses: one for each weight that is not zero. */
  function Entries(weights: seq<nat>, n: nat): seq<Entry>
    requires n <= |weights|
  {
    if n == 0 then []
    else if weights[n - 1] == 0 then Entries(weights, n - 1)
    else Entries(weights, n - 1) + [Entry(Before(weights, n), n - 1)]
  }

  lemma {:induction false} BeforeMonotone(weights: seq<nat>, i: nat, j: nat)
    requires i <= j <= |weights|
    ensures Before(weights, i) <= Before(weights, j)
  {
    if i < j {
      BeforeMonotone(weights, i, j - 1);
    }
  }

  /** An entry is the end of its response's share, and the entry before it the beginning. */
  predicate Share(weights: seq<nat>, entries: seq<Entry>, k: nat) {
    k < |entries| ==>
      && entries[k].index < |weights|
      && entries[k].bound == Before(weights, entries[k].index + 1)
      && Before(weights, entries[k].index) == if k == 0 then 0 else entries[k - 1].bound
  }

  lemma {:induction false} EntriesLast(weights: seq<nat>, n: nat)
    requires n <= |weights|
    ensures var e := Entries(weights, n); Before(weights, n) == if e == [] then 0 else e[|e| - 1].bound
  {
    if n > 0 {
      EntriesLast(weights, n - 1);
    }
  }

  lemma {:induction false} EntriesShare(weights: seq<nat>, n: nat, k: nat)
    requires n <= |weights|
    ensures Share(weights, Entries(weights, n), k)
  {
    if n > 0 {
      EntriesShare(weights, n - 1, k);
      EntriesLast(weights, n - 1);
    }
  }

  /** The first entry above the draw, or none: `upper_bound`. */
  function Above(entries: seq<Entry>, draw: nat, k: nat): (r: nat)
    requires k <= |entries|
    ensures k <= r <= |entries| && (r < |entries| ==> draw < entries[r].bound)
    ensures forall j :: k <= j < r ==> entries[j].bound <= draw
    decreases |entries| - k
  {
    if k == |entries| || draw < entries[k].bound then k else Above(entries, draw, k + 1)
  }

  function Select(entries: seq<Entry>, draw: nat): nat {
    var first := if entries == [] then 0 else entries[0].index;
    var k := Above(entries, draw, 0);
    if |entries| > 1 && k < |entries| then entries[k].index else first
  }

  lemma EntriesWhole(weights: seq<nat>)
    requires Total(weights) > 0
    ensures var e := Entries(weights, |weights|); e != [] && e[|e| - 1].bound == Total(weights)
  {
    EntriesLast(weights, |weights|);
  }

  /** A draw falls into a response's share. */
  predicate Falls(weights: seq<nat>, draw: nat, i: nat) {
    i < |weights| && Before(weights, i) <= draw && draw - Before(weights, i) < weights[i]
  }

  /** A response is selected by the draws of its share. */
  lemma SelectShare(weights: seq<nat>, draw: nat)
    requires draw < Total(weights)
    ensures Falls(weights, draw, Select(Entries(weights, |weights|), draw))
  {
    var entries := Entries(weights, |weights|);
    EntriesWhole(weights);
    EntriesShare(weights, |weights|, Above(entries, draw, 0));
    SelectOf(weights, entries, draw);
  }

  /** The first entry above the draw, which begins no later. */
  lemma SelectOf(weights: seq<nat>, entries: seq<Entry>, draw: nat)
    requires entries != [] && draw < entries[|entries| - 1].bound && Share(weights, entries, Above(entries, draw, 0))
    ensures Falls(weights, draw, Select(entries, draw))
  {
    var k := Above(entries, draw, 0);
    assert k < |entries| && draw < entries[k].bound;
    assert k > 0 ==> entries[k - 1].bound <= draw;
    assert Select(entries, draw) == entries[k].index;
  }

  lemma SelectExactly(weights: seq<nat>, draw: nat, i: nat)
    requires draw < Total(weights) && i < |weights|
    ensures Select(Entries(weights, |weights|), draw) == i <==> Before(weights, i) <= draw < Before(weights, i + 1)
  {
    SelectShare(weights, draw);
    var s := Select(Entries(weights, |weights|), draw);
    if s < i {
      BeforeMonotone(weights, s + 1, i);
    } else if i < s {
      BeforeMonotone(weights, i + 1, s);
    }
  }

  /** The draws that select a response. */
  function Draws(weights: seq<nat>, i: nat): set<nat> {
    set draw: nat | draw < Total(weights) && Select(Entries(weights, |weights|), draw) == i
  }

  function Interval(a: nat, b: nat): (r: set<nat>)
    ensures forall x :: x in r <==> a <= x < b
    ensures |r| == if a <= b then b - a else 0
  {
    if a >= b then {} else Interval(a, b - 1) + {b - 1}
  }

  /** Each response is selected by exactly as many draws as its weight: one without weight by none. */
  lemma DrawsAreWeight(weights: seq<nat>, i: nat)
    requires i < |weights|
    ensures |Draws(weights, i)| == weights[i]
  {
    BeforeMonotone(weights, i + 1, |weights|);
    var share := Interval(Before(weights, i), Before(weights, i + 1));
    forall draw: nat ensures draw in Draws(weights, i) <==> draw in share {
      if draw < Total(weights) {
        SelectExactly(weights, draw, i);
      }
    }
    assert Draws(weights, i) == share;
  }

  /** Without any weight the first response is selected, whatever is drawn. */
  lemma NoWeight(weights: seq<nat>, draw: nat)
    requires Total(weights) == 0
    ensures Select(Entries(weights, |weights|), draw) == 0
  {
    BeforePositive(weights, |weights|);
  }

  lemma {:induction false} BeforePositive(weights: seq<nat>, n: nat)
    requires n <= |weights|
    ensures Before(weights, n) == 0 ==> Entries(weights, n) == []
  {
    if n > 0 {
      BeforePositive(weights, n - 1);
    }
  }

  class ResponseGroup {
    const weights: seq<nat>
    var distribution: seq<Entry>
    var totalWeight: nat

    constructor (weights: seq<nat>)
      ensures this.weights == weights
      ensures distribution == Entries(weights, |weights|) &&
              totalWeight == if Total(weights) == 0 then 1 else Total(weights)
    {
      this.weights := weights;
      distribution, totalWeight := [], 0;
      new;
      InitDistribution();
    }

    method InitDistribution()
      requires distribution == []
      modifies this
      ensures distribution == Entries(weights, |weights|) &&
              totalWeight == if Total(weights) == 0 then 1 else Total(weights)
    {
      var total := 0;
      for index := 0 to |weights|
        invariant total == Before(weights, index) && distribution == Entries(weights, index)
      {
        if weights[index] != 0 {
          total := total + weights[index];
          distribution := distribution + [Entry(total, index)];
        }
      }
      EntriesLast(weights, |weights|);
      BeforePositive(weights, |weights|);
      totalWeight := if |distribution| > 0 then distribution[|distribution| - 1].bound else 1;
    }

    /** `draw` is what the random source gives, if it is asked. */
    method SelectResponse(draw: nat) returns (index: nat)
      ensures index == Select(distribution, draw)
    {
      index := if |distribution| > 0 then distribution[0].index else 0;
      if |distribution| > 1 {
        var k := 0;
        while k < |distribution| && distribution[k].bound <= draw
          invariant 0 <= k <= |distribution| && Above(distribution, draw, k) == Above(distribution, draw, 0)
        {
          k := k + 1;
        }
        if k < |distribution| {
          index := distribution[k].index;
        }
      }
    }
  }
}
