/**
 * Fuel for a spacecraft (day 1): each module needs floor(mass / 3) - 2 units
 * of fuel, and a spacecraft needs the sum over its modules.
 */
module Fuel {
  import opened Common

  datatype Module = Module(mass: int)

  datatype Spacecraft = Spacecraft(modules: seq<Module>)

  /** `Module.get_fuel_required`: a third of the mass, rounded down, minus two. */
  function ModuleFuel(m: Module): (fuel: int)
    ensures 3 * (fuel + 2) <= m.mass < 3 * (fuel + 2) + 3
  {
    m.mass / 3 - 2
  }

  /** A heavier module never needs less fuel. */
  lemma ModuleFuelMonotonic(a: Module, b: Module)
    requires a.mass <= b.mass
    ensures ModuleFuel(a) <= ModuleFuel(b)
  {
  }

  /** Fuel of each module of a list, in order. */
  function Fuels(modules: seq<Module>): (r: seq<int>)
    ensures |r| == |modules|
    ensures forall i :: 0 <= i < |modules| ==> r[i] == ModuleFuel(modules[i])
  {
    if |modules| == 0 then [] else Fuels(modules[..|modules| - 1]) + [ModuleFuel(modules[|modules| - 1])]
  }

  /**
   * `Spacecraft.get_fuel_required`: the sum of the module fuels. Summing
   * each module's bound, n modules of total mass M need fuel f with
   * 3(f + 2n) <= M <= 3(f + 2n) + 2n.
   */
  function CraftFuel(craft: Spacecraft): (f: int)
    ensures var n := |craft.modules|;
      3 * (f + 2 * n) <= Mass(craft.modules) <= 3 * (f + 2 * n) + 2 * n
  {
    FuelMassBounds(craft.modules);
    Sum(Fuels(craft.modules))
  }

  /** The total mass of the modules. */
  function Mass(modules: seq<Module>): int
  {
    if |modules| == 0 then 0 else Mass(modules[..|modules| - 1]) + modules[|modules| - 1].mass
  }

  lemma {:induction false} FuelMassBounds(modules: seq<Module>)
    ensures var f, n := Sum(Fuels(modules)), |modules|;
      3 * (f + 2 * n) <= Mass(modules) <= 3 * (f + 2 * n) + 2 * n
  {
    if |modules| > 0 {
      var front := modules[..|modules| - 1];
      FuelMassBounds(front);
      var fs := Fuels(modules);
      assert fs[..|fs| - 1] == Fuels(front);
    }
  }

  /** `Spacecraft.add_module`: the module goes at the end. */
  function AddModule(craft: Spacecraft, m: Module): (r: Spacecraft)
    ensures |r.modules| == |craft.modules| + 1
    ensures r.modules[..|craft.modules|] == craft.modules
    ensures r.modules[|craft.modules|] == m
  {
    Spacecraft(craft.modules + [m])
  }

  /** An empty craft needs no fuel. */
  lemma EmptyCraftFuel()
    ensures CraftFuel(Spacecraft([])) == 0
  {
  }

  /** Adding a module raises the craft's fuel by exactly that module's fuel. */
  lemma {:induction false} AddModuleFuel(craft: Spacecraft, m: Module)
    ensures CraftFuel(AddModule(craft, m)) == CraftFuel(craft) + ModuleFuel(m)
  {
    var ms := craft.modules + [m];
    assert ms[..|ms| - 1] == craft.modules;
  }

  /** The craft's fuel is the sum of the two halves' fuels, whatever the split. */
  lemma {:induction false} CraftFuelSplit(a: seq<Module>, b: seq<Module>)
    ensures CraftFuel(Spacecraft(a + b)) == CraftFuel(Spacecraft(a)) + CraftFuel(Spacecraft(b))
  {
    var fa := Fuels(a);
    var fb := Fuels(b);
    assert Fuels(a + b) == fa + fb;
    SumAppend(fa, fb);
  }

  /** The worked examples of the puzzle: masses 12, 14, 1969 and 100756. */
  lemma SampleModules()
    ensures ModuleFuel(Module(12)) == 2
    ensures ModuleFuel(Module(14)) == 2
    ensures ModuleFuel(Module(1969)) == 654
    ensures ModuleFuel(Module(100756)) == 33583
    ensures CraftFuel(Spacecraft([Module(12), Module(14)])) == 4
  {
    var f := Fuels([Module(12), Module(14)]);
    assert f == [2, 2];
    assert f[..1] == [2] && [2][..0] == [];
    assert Sum([2]) == 2;
  }
}
