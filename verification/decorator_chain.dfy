/** The decorator chain seen as the list of layers applied to a pizza.

    A chain is read from the inside out: the first topping is the layer
    nearest the base, the last topping is the outermost wrapper. This module
    gives an independent reference reading of description and cost in terms of
    that list and proves the recursive definitions agree with it.
 */
module DecoratorChain {
  import opened Decorator

  /** The kind of a decorator layer. */
  datatype Topping = CheeseTopping | TomatoTopping

  /** The suffix a layer of this kind appends to the description. */
  function Suffix(t: Topping): (s: string)
    ensures |s| == SuffixLength
  {
    match t
    case CheeseTopping => CheeseSuffix
    case TomatoTopping => TomatoSuffix
  }

  /** The price in cents a layer of this kind adds to the cost. */
  function Price(t: Topping): nat {
    match t
    case CheeseTopping => CheeseCost
    case TomatoTopping => TomatoCost
  }

  /** Wraps one decorator of kind t around p. */
  function Decorate(t: Topping, p: Pizza): Pizza {
    match t
    case CheeseTopping => Cheese(p)
    case TomatoTopping => Tomato(p)
  }

  /** Applies the toppings to base in order: ts[0] innermost, the last one outermost. */
  function Wrap(base: Pizza, ts: seq<Topping>): Pizza
    decreases |ts|
  {
    if ts == [] then base else Decorate(ts[|ts| - 1], Wrap(base, ts[..|ts| - 1]))
  }

  /** The layers of p from the innermost to the outermost. */
  function Toppings(p: Pizza): seq<Topping> {
    match p
    case Margherita => []
    case Cheese(q) => Toppings(q) + [CheeseTopping]
    case Tomato(q) => Toppings(q) + [TomatoTopping]
  }

  /** Reference reading of the suffix part: the layers' suffixes, innermost first. */
  function Suffixes(ts: seq<Topping>): string
    decreases |ts|
  {
    if ts == [] then "" else Suffixes(ts[..|ts| - 1]) + Suffix(ts[|ts| - 1])
  }

  /** Reference reading of the price part: the sum of the layers' prices. */
  function Total(ts: seq<Topping>): nat
    decreases |ts|
  {
    if ts == [] then 0 else Total(ts[..|ts| - 1]) + Price(ts[|ts| - 1])
  }

  /** The i-th block of SuffixLength characters of s. */
  function Block(s: string, i: nat): string
    requires SuffixLength * i + SuffixLength <= |s|
  {
    s[SuffixLength * i .. SuffixLength * i + SuffixLength]
  }

  /** Reading the layers of a wrapped pizza gives the base's layers followed
      by the toppings that were applied, in application order. With the plain
      base this is one half of the round trip between chains and lists. */
  lemma {:induction false} ToppingsOfWrap(base: Pizza, ts: seq<Topping>)
    ensures Toppings(Wrap(base, ts)) == Toppings(base) + ts
    decreases |ts|
  {
    if ts != [] {
      var init := ts[..|ts| - 1];
      ToppingsOfWrap(base, init);
      assert init + [ts[|ts| - 1]] == ts;
      assert Toppings(base) + init + [ts[|ts| - 1]] == Toppings(base) + ts;
    }
  }

  /** Every pizza is rebuilt from the plain base by applying its own layers:
      the other half of the round trip between chains and lists. */
  lemma {:induction false} WrapToppings(p: Pizza)
    ensures Wrap(Margherita, Toppings(p)) == p
  {
    match p
    case Margherita =>
    case Cheese(q) =>
      WrapToppings(q);
      assert (Toppings(q) + [CheeseTopping])[..|Toppings(q)|] == Toppings(q);
    case Tomato(q) =>
      WrapToppings(q);
      assert (Toppings(q) + [TomatoTopping])[..|Toppings(q)|] == Toppings(q);
  }

  /** The layer counts used by the closed forms of Description and Cost are
      the length of the layer list and the multiplicities in it. */
  lemma {:induction false} LayerCounts(p: Pizza)
    ensures Layers(p) == |Toppings(p)|
    ensures CheeseLayers(p) == multiset(Toppings(p))[CheeseTopping]
    ensures TomatoLayers(p) == multiset(Toppings(p))[TomatoTopping]
  {
    match p
    case Margherita =>
    case Cheese(q) =>
      LayerCounts(q);
      assert multiset(Toppings(p)) == multiset(Toppings(q)) + multiset{CheeseTopping};
    case Tomato(q) =>
      LayerCounts(q);
      assert multiset(Toppings(p)) == multiset(Toppings(q)) + multiset{TomatoTopping};
  }

  /** Peeling the outermost decorator off a pizza: its description minus the
      last SuffixLength characters is exactly the wrapped pizza's description,
      the removed characters are the layer's suffix, and the cost drops by
      exactly the layer's price. So a decorator hands the wrapped pizza's
      results through unchanged. */
  lemma PeelLayer(t: Topping, q: Pizza)
    ensures var d := Description(Decorate(t, q));
      && |d| == |Description(q)| + SuffixLength
      && d[..|d| - SuffixLength] == Description(q)
      && d[|d| - SuffixLength..] == Suffix(t)
    ensures Cost(Decorate(t, q)) - Cost(q) == Price(t)
  {
  }

  /** Decorating never changes the pizza being decorated: the wrapped pizza's
      description stays as the prefix and its cost stays as a summand, followed
      by the applied layers' suffixes and prices in application order. Two
      chains built over one shared base therefore depend only on that base and
      their own toppings, never on each other. */
  lemma {:induction false} WrapExtends(base: Pizza, ts: seq<Topping>)
    ensures Description(Wrap(base, ts)) == Description(base) + Suffixes(ts)
    ensures Cost(Wrap(base, ts)) == Cost(base) + Total(ts)
    decreases |ts|
  {
    if ts != [] {
      var init := ts[..|ts| - 1];
      var t := ts[|ts| - 1];
      WrapExtends(base, init);
      assert Description(Decorate(t, Wrap(base, init))) == Description(Wrap(base, init)) + Suffix(t);
    }
  }

  /** The description is the base name followed by every layer's suffix,
      innermost first; the cost is the base price plus every layer's price. */
  lemma ChainReading(p: Pizza)
    ensures Description(p) == BaseDescription + Suffixes(Toppings(p))
    ensures Cost(p) == BaseCost + Total(Toppings(p))
  {
    WrapToppings(p);
    WrapExtends(Margherita, Toppings(p));
  }

  /** The suffix list has one block of SuffixLength characters per layer. */
  lemma {:induction false} SuffixesLength(ts: seq<Topping>)
    ensures |Suffixes(ts)| == SuffixLength * |ts|
    decreases |ts|
  {
    if ts != [] {
      SuffixesLength(ts[..|ts| - 1]);
    }
  }

  /** Block i of the suffix list is the suffix of layer i. */
  lemma {:induction false} SuffixBlock(ts: seq<Topping>, i: nat)
    requires i < |ts|
    ensures |Suffixes(ts)| == SuffixLength * |ts|
    ensures Block(Suffixes(ts), i) == Suffix(ts[i])
    decreases |ts|
  {
    var n := |ts| - 1;
    var init := ts[..n];
    var s := Suffixes(init);
    var last := Suffix(ts[n]);
    SuffixesLength(ts);
    SuffixesLength(init);
    assert Suffixes(ts) == s + last;
    if i < n {
      SuffixBlock(init, i);
      BlockOfAppend(s, last, i);
      assert init[i] == ts[i];
    } else {
      BlockAtEnd(s, last, i);
    }
  }

  /** Appending to a string leaves its complete blocks unchanged. */
  lemma BlockOfAppend(s: string, last: string, i: nat)
    requires SuffixLength * i + SuffixLength <= |s|
    ensures Block(s + last, i) == Block(s, i)
  {
  }

  /** A block appended after i whole blocks becomes block i. */
  lemma BlockAtEnd(s: string, last: string, i: nat)
    requires |s| == SuffixLength * i && |last| == SuffixLength
    ensures Block(s + last, i) == last
  {
  }

  /** Concatenation order: the description is the base name followed by one
      block of SuffixLength characters per layer, and block i holds the suffix
      of the i-th layer counted from the base outwards, so the outermost
      suffix is last. */
  lemma LayerOrder(p: Pizza)
    ensures Description(p)[..|BaseDescription|] == BaseDescription
    ensures |Description(p)| == |BaseDescription| + SuffixLength * |Toppings(p)|
    ensures forall i :: 0 <= i < |Toppings(p)| ==>
      Block(Description(p)[|BaseDescription|..], i) == Suffix(Toppings(p)[i])
  {
    var ts := Toppings(p);
    ChainReading(p);
    SuffixesLength(ts);
    assert Description(p)[|BaseDescription|..] == Suffixes(ts);
    forall i | 0 <= i < |ts|
      ensures Block(Suffixes(ts), i) == Suffix(ts[i])
    {
      SuffixBlock(ts, i);
    }
  }

  /** The two suffixes differ, so a suffix names its layer. */
  lemma SuffixInjective(t: Topping, u: Topping)
    requires Suffix(t) == Suffix(u)
    ensures t == u
  {
  }

  /** Wrap order is significant for the text: two pizzas have the same
      description exactly when they are the same chain. */
  lemma DescriptionDeterminesChain(p: Pizza, q: Pizza)
    ensures Description(p) == Description(q) <==> p == q
  {
    if Description(p) == Description(q) {
      var tp, tq := Toppings(p), Toppings(q);
      var b := |BaseDescription|;
      LayerOrder(p);
      LayerOrder(q);
      assert |tp| == |tq|;
      forall i | 0 <= i < |tp|
        ensures tp[i] == tq[i]
      {
        assert Suffix(tp[i]) == Block(Description(p)[b..], i);
        SuffixInjective(tp[i], tq[i]);
      }
      assert tp == tq;
      WrapToppings(p);
      WrapToppings(q);
    }
  }

  /** The total price of a topping list depends only on how many layers of
      each kind it has. */
  lemma {:induction false} TotalByCounts(ts: seq<Topping>)
    ensures Total(ts) == CheeseCost * multiset(ts)[CheeseTopping] + TomatoCost * multiset(ts)[TomatoTopping]
    decreases |ts|
  {
    if ts != [] {
      var init := ts[..|ts| - 1];
      TotalByCounts(init);
      assert ts == init + [ts[|ts| - 1]];
      assert multiset(ts) == multiset(init) + multiset{ts[|ts| - 1]};
    }
  }

  /** Wrap order is not significant for the price: chains with the same layers
      in any order cost the same. */
  lemma CostOrderIndependent(p: Pizza, q: Pizza)
    requires multiset(Toppings(p)) == multiset(Toppings(q))
    ensures Cost(p) == Cost(q)
  {
    ChainReading(p);
    ChainReading(q);
    TotalByCounts(Toppings(p));
    TotalByCounts(Toppings(q));
  }

  /** Adding at least one layer strictly raises the cost, and the original
      description becomes a proper prefix of the new one. */
  lemma DecoratingGrows(base: Pizza, ts: seq<Topping>)
    requires ts != []
    ensures Cost(Wrap(base, ts)) > Cost(base)
    ensures Description(base) < Description(Wrap(base, ts))
  {
    WrapExtends(base, ts);
    SuffixesLength(ts);
    assert Total(ts) >= Price(ts[|ts| - 1]) > 0;
  }
}
