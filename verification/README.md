# Design-pattern demos: pizza decorator chain and lazy singleton

This project models the two pieces of the design-pattern collection that carry
logic, and proves properties of the model in Dafny.

**Pizza decorator chain** (`decorator.dfy`, `decorator_chain.dfy`). A `Pizza` is
the base `Margherita` or a decorator (`Cheese`, `Tomato`) around exactly one
other pizza. `Description` asks the wrapped pizza for its description and
appends the layer's suffix (`", Cheese"` or `", Tomato"`). `Cost` asks the
wrapped pizza for its cost and adds the layer's price. Prices are integer
cents: 699 for the base, 150 for cheese and 75 for tomato. Java's abstract
`PizzaDecorator`, with its `super` calls, becomes pattern matching on the
datatype, and the results are the same. The module `DecoratorChain` reads a
chain as the list of its layers, innermost first (`Toppings`, and `Wrap` as the
inverse). It gives reference definitions of the description (`Suffixes`) and
the cost (`Total`) over that list, and proves that the recursive functions
agree with them.

**Lazy singleton** (`singleton.dfy`). The class's static `instance` field is an
explicit `Slot` object passed to the accessor. The slot holds a nullable
reference and a ghost count of constructions. `GetInstance` constructs and
stores an instance only when the slot is empty, and it always returns what the
slot holds. Calls are sequential.

## Model

| member | source | states |
|---|---|---|
| Decorator.Description | StructuralPattern/Decorator/PizzaExample.java:11-72 | The description always starts with "Margherita". Its length is 10 plus 8 per decorator layer. It is exactly "Margherita" if and only if the pizza is the plain base. |
| Decorator.Cost | StructuralPattern/Decorator/PizzaExample.java:11-72 | The cost is 699 cents plus 150 per cheese layer plus 75 per tomato layer. So it is at least 699, and it is exactly 699 if and only if the pizza is the plain base. |
| DecoratorChain.PeelLayer | StructuralPattern/Decorator/PizzaExample.java:31-72 | A decorator passes on its wrapped pizza's results unchanged. Dropping the last 8 characters of its description gives the wrapped pizza's description. The dropped characters are the layer's own suffix, and the cost exceeds the wrapped cost by exactly the layer's price. |
| Decorator.DemoPizzas | StructuralPattern/Decorator/PizzaExample.java:77-83 | The demo's three pizzas give "Margherita" at 699 cents, "Margherita, Cheese" at 849 cents and "Margherita, Cheese, Tomato" at 924 cents. |
| DecoratorChain.ToppingsOfWrap | StructuralPattern/Decorator/PizzaExample.java:24-29 | Each decorator wraps exactly one pizza. So wrapping a pizza in a list of decorators and reading its layers back gives the pizza's own layers followed by that list, in order. From the plain base, building a chain from a list and reading it back returns the list. |
| DecoratorChain.WrapToppings | StructuralPattern/Decorator/PizzaExample.java:24-29 | Rebuilding a chain from the plain base with its own layers returns the same chain. With `ToppingsOfWrap`, chains and layer lists correspond one to one. |
| DecoratorChain.LayerCounts | StructuralPattern/Decorator/PizzaExample.java:43-73 | The layer counts in the closed forms of `Description` and `Cost` agree with the layer list. The total count is its length, and the cheese and tomato counts are how often each kind occurs in it. |
| DecoratorChain.WrapExtends | StructuralPattern/Decorator/PizzaExample.java:77-79 | Wrapping a pizza in any list of decorators keeps that pizza's description as the prefix and its cost as a summand. The new layers' suffixes and prices follow in wrap order. Two chains over one shared base depend only on the base and their own layers. |
| DecoratorChain.ChainReading | StructuralPattern/Decorator/PizzaExample.java:11-72 | Every description equals "Margherita" followed by the suffixes of all layers, innermost first. Every cost equals 699 plus the prices of all layers. |
| DecoratorChain.LayerOrder | StructuralPattern/Decorator/PizzaExample.java:13-67 | The description begins with "Margherita". The i-th 8-character block after it is the suffix of the i-th layer counted outwards from the base, so the outermost suffix comes last. |
| DecoratorChain.DescriptionDeterminesChain | StructuralPattern/Decorator/PizzaExample.java:48-67 | Two pizzas have equal descriptions if and only if they are the same chain. So wrap order is significant for the text. |
| DecoratorChain.CostOrderIndependent | StructuralPattern/Decorator/PizzaExample.java:53-72 | Chains with the same layers in any order have the same cost. |
| DecoratorChain.DecoratingGrows | StructuralPattern/Decorator/PizzaExample.java:48-72 | Adding at least one layer strictly raises the cost. It also makes the old description a proper prefix of the new one. |
| DecoratorChain.TotalByCounts | StructuralPattern/Decorator/PizzaExample.java:53-72 | The summed price of a list of layers is 150 per cheese layer plus 75 per tomato layer. |
| Singleton.Slot.constructor | CreationalPattern/Singleton/ThreadSafeSingleton.java:7 | At program start the slot is empty and nothing has been constructed, so the invariant holds. |
| Singleton.GetInstance | CreationalPattern/Singleton/ThreadSafeSingleton.java:12-17 | After the call, the slot is filled and holds the returned object. If the slot was already filled, the call returns the stored object and constructs nothing. If the slot was empty, the call constructs exactly one fresh object and stores it. The invariant holds throughout: at most one construction, and the slot is filled exactly when that construction has happened. |
| Singleton.GetInstanceRepeatedly | CreationalPattern/Singleton/ThreadSafeSingleton.java:7-17 | Over any number of consecutive calls, every call returns the same object, the one the slot holds. At most one construction happens in total. |

## Left out

- `PizzaExample.main` prints the three pizzas with `System.out.println`. Console output is not modelled. Its values are stated by `Decorator.DemoPizzas`.
- Decorator.Cost: costs are exact integer cents, not Java `double` values. Binary floating-point rounding of 6.99 + 1.50 + 0.75 is not modelled.
- A decorator built around a `null` pizza is not modelled. The Java constructor does not check for null, and such a decorator fails only when it is queried. The datatype has no null, so the model cannot express this case.
- Java's dynamic dispatch and `super` calls become pattern matching on one datatype. The abstract `PizzaDecorator` gets no datatype constructor of its own in the model, and its forwarding behaviour is what `DecoratorChain.PeelLayer` states.
- Repeated queries return identical results because Dafny functions are deterministic. No separate statement is made.
- The `synchronized` keyword and concurrent first access in `getInstance` are not modelled. Only sequential calls are modelled.
- The model does not hide the `ThreadSafeSingleton` constructor, so the ghost counter in `Slot` only tracks constructions made by `GetInstance`.
- `Slot.instance` can be written by any code, unlike Java's private static field, so the same-object property is proved for calls with no write to the slot between them (`Singleton.GetInstanceRepeatedly`).
- The singleton's static field becomes a `Slot` object passed to the accessor. A Java program has exactly one such slot.
- `RuntimeSingletonExample.java` only queries the JVM runtime and prints the results. It is not part of this model.
