/**
 * Nanofactory (day 14): reactions turn ingredients into batches of a
 * chemical; the stock counts what is on hand (ORE is drawn on without limit
 * and goes negative), and producing a chemical first produces and consumes
 * its ingredients, one batch at a time, until enough is in stock.
 */
module Factory {
  import opened Common

  const ORE: string := "ORE"

  datatype Ingredient = Ingredient(name: string, amount: int)

  datatype Chemical = Chemical(name: string, batchSize: int, recipe: seq<Ingredient>)

  /** The stock, a `defaultdict(int)`: a missing name holds 0. */
  type Stock = map<string, int>

  /** The reactions by product name. */
  type Chemicals = map<string, Chemical>

  function Get(stock: Stock, name: string): int
  {
    if name in stock then stock[name] else 0
  }

  /** `get_ore_used`: how far ORE has been drawn below zero. */
  function OreUsed(stock: Stock): (n: nat)
    ensures Get(stock, ORE) <= 0 ==> n == -Get(stock, ORE)
  {
    Abs(Get(stock, ORE))
  }

  /** `has_chemical_in_stock`: ORE is always available; anything else needs `amount` on hand. */
  function HasInStock(stock: Stock, name: string, amount: int): (r: bool)
    ensures name == ORE ==> r
    ensures name != ORE ==> (r <==> Get(stock, name) >= amount)
  {
    name == ORE || Get(stock, name) >= amount
  }

  /** `consume_chemical`: takes `amount` off the name's stock, which may go negative. */
  function Consume(stock: Stock, name: string, amount: int): (r: Stock)
    ensures Get(r, name) == Get(stock, name) - amount
    ensures forall other :: other != name ==> Get(r, other) == Get(stock, other)
  {
    stock[name := Get(stock, name) - amount]
  }

  /**
   * A chemical other than ORE is in stock for an amount exactly when taking
   * that amount leaves its stock at zero or more; a smaller amount is then in
   * stock too.
   */
  lemma InStockIffConsumable(stock: Stock, name: string, amount: int, less: int)
    requires name != ORE && less <= amount
    ensures HasInStock(stock, name, amount) <==> Get(Consume(stock, name, amount), name) >= 0
    ensures HasInStock(stock, name, amount) ==> HasInStock(stock, name, less)
  {
  }

  /** Adds a finished batch to the stock. */
  function Add(stock: Stock, name: string, amount: int): (r: Stock)
    ensures Get(r, name) == Get(stock, name) + amount
    ensures forall other :: other != name ==> Get(r, other) == Get(stock, other)
  {
    stock[name := Get(stock, name) + amount]
  }

  /** How a production run ends: with a stock, with an exception, or not within the step budget. */
  datatype Run = Finished(stock: Stock) | Raised(error: Exception) | Unfinished

  /**
   * `produce_chemical`: while the stock lacks `amount` of `name`, look the
   * chemical up (AttributeError when there is no reaction for it), produce
   * and consume each ingredient in recipe order, then add one batch. Each
   * batch costs one unit of `fuel`; a run that needs more is Unfinished.
   * Unfinished stands for two outcomes of the source: the RecursionError
   * Python raises when the nested calls exceed its recursion limit (a cyclic
   * recipe, or a chain deeper than the limit), and the endless loop of a
   * recipe whose batches never bring the stock up to the amount.
   */
  function Produce(chems: Chemicals, stock: Stock, name: string, amount: int, fuel: nat): (r: Run)
    ensures r.Finished? ==> HasInStock(r.stock, name, amount)
    ensures r.Raised? ==> r.error == AttributeError
    decreases fuel, 0, 0
  {
    if HasInStock(stock, name, amount) then Finished(stock)
    else if fuel == 0 then Unfinished
    else if name !in chems then Raised(AttributeError)
    else
      var chemical := chems[name];
      match Ingredients(chems, stock, chemical.recipe, fuel - 1)
      case Finished(s) => Produce(chems, Add(s, chemical.name, chemical.batchSize), name, amount, fuel - 1)
      case other => other
  }

  /** The `for ingredient in chemical.recipe` loop: produce each ingredient, then consume it. */
  function Ingredients(chems: Chemicals, stock: Stock, recipe: seq<Ingredient>, fuel: nat): (r: Run)
    ensures r.Raised? ==> r.error == AttributeError
    decreases fuel, 1, |recipe|
  {
    if |recipe| == 0 then Finished(stock)
    else
      match Produce(chems, stock, recipe[0].name, recipe[0].amount, fuel)
      case Finished(s) => Ingredients(chems, Consume(s, recipe[0].name, recipe[0].amount), recipe[1..], fuel)
      case other => other
  }

  // ---------------------------------------------------------------------
  // What production keeps.

  /** Every reaction is filed under its own product's name. */
  predicate WellKeyed(chems: Chemicals)
  {
    forall n :: n in chems ==> chems[n].name == n
  }

  /** Amounts read by the recipe pattern are digit strings, so none is negative; batches are not negative. */
  predicate NonNegative(chems: Chemicals)
  {
    forall n :: n in chems ==>
      chems[n].batchSize >= 0 && forall i :: 0 <= i < |chems[n].recipe| ==> chems[n].recipe[i].amount >= 0
  }

  /** Every chemical other than ORE is stocked at 0 or more. */
  predicate NoDebt(stock: Stock)
  {
    forall n :: n in stock && n != ORE ==> stock[n] >= 0
  }

  /**
   * With reactions filed under their products and non-negative amounts,
   * producing never adds ORE (ORE only goes down) and never drives another
   * chemical's stock below zero.
   */
  lemma {:induction false} ProduceKeeps(chems: Chemicals, stock: Stock, name: string, amount: int, fuel: nat)
    requires WellKeyed(chems) && NonNegative(chems) && NoDebt(stock)
    ensures var r := Produce(chems, stock, name, amount, fuel);
      r.Finished? ==> Get(r.stock, ORE) <= Get(stock, ORE) && NoDebt(r.stock)
    decreases fuel, 0, 0
  {
    if !HasInStock(stock, name, amount) && fuel > 0 && name in chems {
      var chemical := chems[name];
      IngredientsKeep(chems, stock, chemical.recipe, fuel - 1);
      match Ingredients(chems, stock, chemical.recipe, fuel - 1)
      case Finished(s) =>
        assert name != ORE;
        var s' := Add(s, chemical.name, chemical.batchSize);
        assert NoDebt(s') by {
          forall n | n in s' && n != ORE
            ensures s'[n] >= 0
          {
            assert s'[n] == Get(s', n);
            if n != name {
              assert Get(s, n) >= 0 by { assert n in s ==> s[n] == Get(s, n); }
            }
          }
        }
        ProduceKeeps(chems, s', name, amount, fuel - 1);
      case _ =>
    }
  }

  lemma {:induction false} IngredientsKeep(chems: Chemicals, stock: Stock, recipe: seq<Ingredient>, fuel: nat)
    requires WellKeyed(chems) && NonNegative(chems) && NoDebt(stock)
    requires forall i :: 0 <= i < |recipe| ==> recipe[i].amount >= 0
    ensures var r := Ingredients(chems, stock, recipe, fuel);
      r.Finished? ==> Get(r.stock, ORE) <= Get(stock, ORE) && NoDebt(r.stock)
    decreases fuel, 1, |recipe|
  {
    if |recipe| > 0 {
      var ing := recipe[0];
      ProduceKeeps(chems, stock, ing.name, ing.amount, fuel);
      match Produce(chems, stock, ing.name, ing.amount, fuel)
      case Finished(s) =>
        var s' := Consume(s, ing.name, ing.amount);
        assert NoDebt(s') by {
          forall n | n in s' && n != ORE
            ensures s'[n] >= 0
          {
            assert s'[n] == Get(s', n);
            if n != ing.name {
              assert Get(s, n) >= 0 by { assert n in s ==> s[n] == Get(s, n); }
            } else {
              assert HasInStock(s, ing.name, ing.amount);
            }
          }
        }
        IngredientsKeep(chems, s', recipe[1..], fuel);
      case _ =>
    }
  }

  /** Starting from an empty stock, the ORE used is exactly the ORE drawn down by a finished run. */
  lemma OreUsedFromEmpty(chems: Chemicals, name: string, amount: int, fuel: nat)
    requires WellKeyed(chems) && NonNegative(chems)
    ensures var r := Produce(chems, map[], name, amount, fuel);
      r.Finished? ==> Get(r.stock, ORE) <= 0 && OreUsed(r.stock) == -Get(r.stock, ORE)
  {
    ProduceKeeps(chems, map[], name, amount, fuel);
  }

  /**
   * A small factory: 10 ORE make 10 A, and 7 A with 1 ORE make 1 B. One B
   * takes one batch of A, leaves 3 A over, and uses 11 ORE.
   */
  lemma SampleProduction()
    ensures var chems := map[
        "A" := Chemical("A", 10, [Ingredient(ORE, 10)]),
        "B" := Chemical("B", 1, [Ingredient("A", 7), Ingredient(ORE, 1)])];
      var r := Produce(chems, map[], "B", 1, 3);
      && r.Finished?
      && Get(r.stock, "A") == 3 && Get(r.stock, "B") == 1
      && OreUsed(r.stock) == 11
  {
    var chems := map[
        "A" := Chemical("A", 10, [Ingredient(ORE, 10)]),
        "B" := Chemical("B", 1, [Ingredient("A", 7), Ingredient(ORE, 1)])];
    var empty: Stock := map[];
    var s1 := Consume(empty, ORE, 10);
    assert Ingredients(chems, empty, chems["A"].recipe, 1) == Finished(s1);
    var s2 := Add(s1, "A", 10);
    assert Produce(chems, empty, "A", 7, 2) == Finished(s2);
    var s3 := Consume(Consume(s2, "A", 7), ORE, 1);
    assert chems["B"].recipe[1..] == [Ingredient(ORE, 1)];
    assert [Ingredient(ORE, 1)][1..] == [];
    assert Ingredients(chems, Consume(s2, "A", 7), [Ingredient(ORE, 1)], 2) == Finished(s3);
    assert Ingredients(chems, empty, chems["B"].recipe, 2) == Finished(s3);
  }

  // ---------------------------------------------------------------------
  // `parse_reactions`, after each line is split into its parts.

  /** One production rule line, `<recipe> => <batch> <name>`, already split into its parts. */
  datatype Rule = Rule(recipe: seq<Ingredient>, batchSize: int, name: string)

  /** `parse_reactions`: one reaction per rule, filed under its product; a later rule for the same product replaces an earlier one. */
  function ParseReactions(rules: seq<Rule>): (chems: Chemicals)
    ensures WellKeyed(chems)
  {
    if |rules| == 0 then map[]
    else
      var r := rules[|rules| - 1];
      ParseReactions(rules[..|rules| - 1])[r.name := Chemical(r.name, r.batchSize, r.recipe)]
  }

  /** The last rule for `name`, if any. */
  function LastRule(rules: seq<Rule>, name: string): Option<Rule>
  {
    if |rules| == 0 then None
    else if rules[|rules| - 1].name == name then Some(rules[|rules| - 1])
    else LastRule(rules[..|rules| - 1], name)
  }

  /**
   * The parsed reactions are filed under exactly the products named by the
   * rules, and each holds the batch size and recipe of the last rule for it.
   */
  lemma {:induction false} ParseLastWins(rules: seq<Rule>, name: string)
    ensures name in ParseReactions(rules) <==> LastRule(rules, name).Some?
    ensures name in ParseReactions(rules) ==>
      var rule := LastRule(rules, name).value;
      ParseReactions(rules)[name] == Chemical(name, rule.batchSize, rule.recipe)
  {
    if |rules| > 0 {
      ParseLastWins(rules[..|rules| - 1], name);
    }
  }

  /** Rules whose amounts and batches are not negative give reactions that are not either. */
  lemma {:induction false} ParseNonNegative(rules: seq<Rule>)
    requires forall k :: 0 <= k < |rules| ==> rules[k].batchSize >= 0
    requires forall k, i :: 0 <= k < |rules| && 0 <= i < |rules[k].recipe| ==> rules[k].recipe[i].amount >= 0
    ensures NonNegative(ParseReactions(rules))
  {
    if |rules| > 0 {
      ParseNonNegative(rules[..|rules| - 1]);
    }
  }
}
