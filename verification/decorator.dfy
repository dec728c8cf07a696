/** The pizza decorator chain.

    A pizza is either the plain Margherita or one decorator layer (cheese or
    tomato) around exactly one other pizza. Asking a pizza for its description
    or its cost asks the wrapped pizza first and then appends the layer's own
    suffix, or adds the layer's own price. Prices are kept in integer cents.
 */
module Decorator {

  /** The base pizza, or one decorator layer around the pizza it wraps. */
  datatype Pizza = Margherita | Cheese(inner: Pizza) | Tomato(inner: Pizza)

  const BaseDescription: string := "Margherita"
  const CheeseSuffix: string := ", Cheese"
  const TomatoSuffix: string := ", Tomato"

  /** Every decorator suffix has this many characters. */
  const SuffixLength: nat := 8

  /** Prices in cents: $6.99, $1.50 and $0.75. */
  const BaseCost: nat := 699
  const CheeseCost: nat := 150
  const TomatoCost: nat := 75

  /** Number of decorator layers around the base. */
  function Layers(p: Pizza): nat {
    match p
    case Margherita => 0
    case Cheese(q) => Layers(q) + 1
    case Tomato(q) => Layers(q) + 1
  }

  /** Number of cheese layers in the chain. */
  function CheeseLayers(p: Pizza): nat {
    match p
    case Margherita => 0
    case Cheese(q) => CheeseLayers(q) + 1
    case Tomato(q) => CheeseLayers(q)
  }

  /** Number of tomato layers in the chain. */
  function TomatoLayers(p: Pizza): nat {
    match p
    case Margherita => 0
    case Cheese(q) => TomatoLayers(q)
    case Tomato(q) => TomatoLayers(q) + 1
  }

  /** The composed description: the wrapped pizza's description followed by
      the layer's own suffix. It always starts with the base name, grows by one
      suffix per layer, and is the bare base name exactly for the Margherita. */
  function Description(p: Pizza): (d: string)
    ensures BaseDescription <= d
    ensures |d| == |BaseDescription| + SuffixLength * Layers(p)
    ensures d == BaseDescription <==> p == Margherita
  {
    match p
    case Margherita => BaseDescription
    case Cheese(q) => Description(q) + CheeseSuffix
    case Tomato(q) => Description(q) + TomatoSuffix
  }

  /** The composed cost in cents: the wrapped pizza's cost plus the layer's
      own price. It equals the base price plus one delta per layer, never
      drops below the base price, and equals it exactly for the Margherita. */
  function Cost(p: Pizza): (c: nat)
    ensures c == BaseCost + CheeseCost * CheeseLayers(p) + TomatoCost * TomatoLayers(p)
    ensures c >= BaseCost
    ensures c == BaseCost <==> p == Margherita
  {
    match p
    case Margherita => BaseCost
    case Cheese(q) => Cost(q) + CheeseCost
    case Tomato(q) => Cost(q) + TomatoCost
  }

  /** The three pizzas of the demonstration program: a Margherita, the same
      Margherita with cheese, and that Margherita with cheese then tomato. */
  lemma DemoPizzas()
    ensures Description(Margherita) == "Margherita" && Cost(Margherita) == 699
    ensures Description(Cheese(Margherita)) == "Margherita, Cheese"
    ensures Cost(Cheese(Margherita)) == 849
    ensures Description(Tomato(Cheese(Margherita))) == "Margherita, Cheese, Tomato"
    ensures Cost(Tomato(Cheese(Margherita))) == 924
  {
  }
}
