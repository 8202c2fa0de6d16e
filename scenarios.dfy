/** Scopes from the rule's test suite, plus two constructed scopes
    (`CaseFoldingDecides`, `ComputedKeyLiftsGate`) that show case folding and
    the `minKeys` gate, with the reports the model produces for them. Each
    shorthand or `key: value` binding with a plain key resolves to its key;
    the computed key `[b+c]` resolves to nothing. */
module Scenarios {

  import opened Wrappers
  import opened Orders
  import opened RuleConfig
  import opened Scope
  import opened Traversal

  /** A binding whose key is the identifier or literal `s`. */
  function Named(s: string): Item
  {
    Key(Some(s), Some(s))
  }

  /** A computed key that is not statically known, such as `[b+c]`. */
  const Computed: Item := Key(None, None)

  /** A scope of two resolvable bindings reports the second exactly when the
      pair is out of order. */
  lemma PairOfKeys(config: Config, naturalCompare: NaturalCompare, numKeys: nat, x: Item, y: Item)
    requires x.Key? && y.Key? && x.Name().Some? && y.Name().Some?
    requires numKeys >= config.minKeys
    ensures Scan(config, naturalCompare, numKeys, [x, y])
         == if IsValidOrder(config.comparator, naturalCompare, x.Name().value, y.Name().value) then []
            else [Report(config, x.Name().value, y.Name().value)]
  {
    assert [x, y][..1] == [x];
    assert [x][..0] == [];
    assert Run(config, naturalCompare, numKeys, [x]) == Outcome(Frame(x.Name(), numKeys), []);
    var step := CheckKey(config, naturalCompare, Frame(x.Name(), numKeys), y.Name());
    assert Run(config, naturalCompare, numKeys, [x, y]).violations == Reports(step.report);
  }

  /** A third resolvable binding is compared with the second only. */
  lemma TripleOfKeys(config: Config, naturalCompare: NaturalCompare, numKeys: nat, x: Item, y: Item, z: Item)
    requires x.Key? && y.Key? && z.Key? && x.Name().Some? && y.Name().Some? && z.Name().Some?
    requires numKeys >= config.minKeys
    ensures Scan(config, naturalCompare, numKeys, [x, y, z])
         == Scan(config, naturalCompare, numKeys, [x, y])
            + if IsValidOrder(config.comparator, naturalCompare, y.Name().value, z.Name().value) then []
              else [Report(config, y.Name().value, z.Name().value)]
  {
    assert [x, y, z][..2] == [x, y];
    assert [x, y][..1] == [x];
    assert [x][..0] == [];
    assert Run(config, naturalCompare, numKeys, [x, y]).frame == Frame(y.Name(), numKeys);
  }

  /** `{a, c, b}` with default options: `b` is reported after `c`. */
  lemma OutOfOrderDefault(naturalCompare: NaturalCompare)
    ensures Parse(RuleOptions(None, None)).Some?
    ensures var items := [Named("a"), Named("c"), Named("b")];
            Scan(Parse(RuleOptions(None, None)).value, naturalCompare, |items|, items)
            == [Violation("b", "c", "asc", "", "")]
  {
    var config := Parse(RuleOptions(None, None)).value;
    var items := [Named("a"), Named("c"), Named("b")];
    assert config == Config("asc", false, false, 0, Asc);
    assert items[..2] == [Named("a"), Named("c")];
    assert items[..2][..1] == [Named("a")];
    assert [Named("a")][..0] == [];
    assert Run(config, naturalCompare, 3, [Named("a")]) == Outcome(Frame(Some("a"), 3), []);
    assert IsValidOrder(Asc, naturalCompare, "a", "c");
    assert Run(config, naturalCompare, 3, items[..2]) == Outcome(Frame(Some("c"), 3), []);
    assert !IsValidOrder(Asc, naturalCompare, "c", "b");
  }

  /** `{a, c, b}` with `minKeys: 4`: three entries are below the gate. */
  lemma OutOfOrderBelowMinKeys(naturalCompare: NaturalCompare)
    ensures Parse(RuleOptions(Some("asc"), Some(Settings(None, None, Some(4))))).Some?
    ensures var items := [Named("a"), Named("c"), Named("b")];
            Scan(Parse(RuleOptions(Some("asc"), Some(Settings(None, None, Some(4))))).value,
                 naturalCompare, |items|, items) == []
  {
    var config := Parse(RuleOptions(Some("asc"), Some(Settings(None, None, Some(4))))).value;
    BelowMinKeysSilent(config, naturalCompare, 3, [Named("a"), Named("c"), Named("b")]);
  }

  /** `{...z, ...c, d:4, b:1, ...y, ...f, e:2, a:1}`: two reports, one on
      each side of the spreads, none across them. */
  lemma SpreadsSplitReports(naturalCompare: NaturalCompare)
    ensures Parse(RuleOptions(None, None)).Some?
    ensures Scan(Parse(RuleOptions(None, None)).value, naturalCompare, 8,
                 [Spread, Spread] + [Named("d"), Named("b")] + [Spread, Spread] + [Named("e"), Named("a")])
            == [Violation("b", "d", "asc", "", ""), Violation("a", "e", "asc", "", "")]
  {
    var config := Parse(RuleOptions(None, None)).value;
    assert config == Config("asc", false, false, 0, Asc);
    PairOfKeys(config, naturalCompare, 8, Named("d"), Named("b"));
    PairOfKeys(config, naturalCompare, 8, Named("e"), Named("a"));
    assert !LexLe("d", "b") && !LexLe("e", "a");
    SpreadPairs(config, naturalCompare, 8, [Named("d"), Named("b")], [Named("e"), Named("a")]);
  }

  /** A spread at either end of a scope reports nothing of its own. */
  lemma SpreadAtEnds(config: Config, naturalCompare: NaturalCompare, numKeys: nat, items: seq<Item>)
    ensures Scan(config, naturalCompare, numKeys, [Spread] + items) == Scan(config, naturalCompare, numKeys, items)
    ensures Scan(config, naturalCompare, numKeys, items + [Spread]) == Scan(config, naturalCompare, numKeys, items)
  {
    var e: seq<Item> := [];
    SpreadSeparates(config, naturalCompare, numKeys, e, items);
    assert e + [Spread] + items == [Spread] + items;
    SpreadSeparates(config, naturalCompare, numKeys, items, e);
    assert items + [Spread] + e == items + [Spread];
    assert Scan(config, naturalCompare, numKeys, e) == [];
  }

  /** The shape of the scope above: two spreads, a run, two spreads, a run. */
  lemma SpreadPairs(config: Config, naturalCompare: NaturalCompare, numKeys: nat, left: seq<Item>, right: seq<Item>)
    ensures Scan(config, naturalCompare, numKeys, [Spread, Spread] + left + [Spread, Spread] + right)
         == Scan(config, naturalCompare, numKeys, left) + Scan(config, naturalCompare, numKeys, right)
  {
    var l1 := [Spread] + left;
    var l2 := [Spread] + l1;
    var l3 := l2 + [Spread];
    SpreadAtEnds(config, naturalCompare, numKeys, left);
    SpreadAtEnds(config, naturalCompare, numKeys, l1);
    SpreadAtEnds(config, naturalCompare, numKeys, l2);
    SpreadSeparates(config, naturalCompare, numKeys, l3, right);
    assert [Spread, Spread] + left + [Spread, Spread] + right == l3 + [Spread] + right;
  }

  /** `{a:1, [b+c]:2, '':3}`: the computed key is skipped, and the empty
      static name is compared with `a` across it. */
  lemma ComputedKeySkipped(naturalCompare: NaturalCompare)
    ensures Parse(RuleOptions(None, None)).Some?
    ensures var items := [Named("a"), Computed, Key(Some(""), None)];
            Scan(Parse(RuleOptions(None, None)).value, naturalCompare, |items|, items)
            == [Violation("", "a", "asc", "", "")]
  {
    var config := Parse(RuleOptions(None, None)).value;
    assert config == Config("asc", false, false, 0, Asc);
    assert [Named("a"), Computed, Key(Some(""), None)] == [Named("a")] + [Computed] + [Key(Some(""), None)];
    UnnamedTransparent(config, naturalCompare, 3, [Named("a")], Computed, [Key(Some(""), None)]);
    assert [Named("a")] + [Key(Some(""), None)] == [Named("a"), Key(Some(""), None)];
    PairOfKeys(config, naturalCompare, 3, Named("a"), Key(Some(""), None));
    assert !LexLe("a", "");
  }

  /** `{'':1, [b+c]:2, a:3}` descending: `a` is reported after the empty
      name. */
  lemma ComputedKeySkippedDescending(naturalCompare: NaturalCompare)
    ensures Parse(RuleOptions(Some("desc"), None)).Some?
    ensures var items := [Key(Some(""), None), Computed, Named("a")];
            Scan(Parse(RuleOptions(Some("desc"), None)).value, naturalCompare, |items|, items)
            == [Violation("a", "", "desc", "", "")]
  {
    var config := Parse(RuleOptions(Some("desc"), None)).value;
    assert config == Config("desc", false, false, 0, Desc);
    assert [Key(Some(""), None), Computed, Named("a")] == [Key(Some(""), None)] + [Computed] + [Named("a")];
    UnnamedTransparent(config, naturalCompare, 3, [Key(Some(""), None)], Computed, [Named("a")]);
    assert [Key(Some(""), None)] + [Named("a")] == [Key(Some(""), None), Named("a")];
    PairOfKeys(config, naturalCompare, 3, Key(Some(""), None), Named("a"));
    assert !LexLe("a", "");
  }

  /** `{c, b, a}` descending: in order, nothing reported. */
  lemma DescendingInOrder(naturalCompare: NaturalCompare)
    ensures Parse(RuleOptions(Some("desc"), None)).Some?
    ensures Scan(Parse(RuleOptions(Some("desc"), None)).value, naturalCompare, 3,
                 [Named("c"), Named("b"), Named("a")]) == []
  {
    var config := Parse(RuleOptions(Some("desc"), None)).value;
    assert config == Config("desc", false, false, 0, Desc);
    TripleOfKeys(config, naturalCompare, 3, Named("c"), Named("b"), Named("a"));
    PairOfKeys(config, naturalCompare, 3, Named("c"), Named("b"));
    assert LexLe("b", "c") && LexLe("a", "b");
  }

  /** `{a:1, _:2, b:3}` folding case: `_` is reported after `a` with the
      "insensitive " label. */
  lemma InsensitiveOutOfOrder(naturalCompare: NaturalCompare)
    ensures Parse(RuleOptions(Some("asc"), Some(Settings(Some(false), None, None)))).Some?
    ensures Scan(Parse(RuleOptions(Some("asc"), Some(Settings(Some(false), None, None)))).value,
                 naturalCompare, 3, [Named("a"), Named("_"), Named("b")])
            == [Violation("_", "a", "asc", "insensitive ", "")]
  {
    var config := Parse(RuleOptions(Some("asc"), Some(Settings(Some(false), None, None)))).value;
    assert config == Config("asc", true, false, 0, AscI);
    TripleOfKeys(config, naturalCompare, 3, Named("a"), Named("_"), Named("b"));
    PairOfKeys(config, naturalCompare, 3, Named("a"), Named("_"));
    assert ToLower("a") == "a" && ToLower("_") == "_" && ToLower("b") == "b";
    assert !LexLe("a", "_") && LexLe("_", "b");
  }

  /** `{B, a}` folding case: "b" follows "a", so `a` is reported with the
      "insensitive " label; without folding "B" sorts before "a" and nothing
      is reported. */
  lemma CaseFoldingDecides(naturalCompare: NaturalCompare)
    ensures Parse(RuleOptions(None, Some(Settings(Some(false), None, None)))).Some?
    ensures Scan(Parse(RuleOptions(None, Some(Settings(Some(false), None, None)))).value,
                 naturalCompare, 2, [Named("B"), Named("a")])
            == [Violation("a", "B", "asc", "insensitive ", "")]
    ensures Parse(RuleOptions(None, None)).Some?
    ensures Scan(Parse(RuleOptions(None, None)).value, naturalCompare, 2, [Named("B"), Named("a")]) == []
  {
    var folded := Parse(RuleOptions(None, Some(Settings(Some(false), None, None)))).value;
    assert folded == Config("asc", true, false, 0, AscI);
    PairOfKeys(folded, naturalCompare, 2, Named("B"), Named("a"));
    TruthTable(naturalCompare);
    var plain := Parse(RuleOptions(None, None)).value;
    assert plain == Config("asc", false, false, 0, Asc);
    PairOfKeys(plain, naturalCompare, 2, Named("B"), Named("a"));
  }

  /** `{a, c, b}` with `minKeys: 4` is silent, but `{a, [b+c], c, b}` is
      not: the computed key resolves to nothing, yet it is a fourth entry
      and lifts the gate, so `b` is reported after `c`. */
  lemma ComputedKeyLiftsGate(naturalCompare: NaturalCompare)
    ensures Parse(RuleOptions(Some("asc"), Some(Settings(None, None, Some(4))))).Some?
    ensures Scan(Parse(RuleOptions(Some("asc"), Some(Settings(None, None, Some(4))))).value,
                 naturalCompare, 3, [Named("a"), Named("c"), Named("b")]) == []
    ensures Scan(Parse(RuleOptions(Some("asc"), Some(Settings(None, None, Some(4))))).value,
                 naturalCompare, 4, [Named("a"), Computed, Named("c"), Named("b")])
            == [Violation("b", "c", "asc", "", "")]
  {
    var config := Parse(RuleOptions(Some("asc"), Some(Settings(None, None, Some(4))))).value;
    assert config == Config("asc", false, false, 4, Asc);
    var a, b := [Named("a")], [Named("c"), Named("b")];
    assert a + b == [Named("a"), Named("c"), Named("b")];
    assert a + [Computed] + b == [Named("a"), Computed, Named("c"), Named("b")];
    UnnamedLiftsGate(config, naturalCompare, a, Computed, b);
    var ungated := config.(minKeys := 0);
    TripleOfKeys(ungated, naturalCompare, 3, Named("a"), Named("c"), Named("b"));
    PairOfKeys(ungated, naturalCompare, 3, Named("a"), Named("c"));
    assert LexLe("a", "c") && !LexLe("c", "b");
  }

  /** `{a, b: {x, y}, c}` with default options: the nested scope is visited
      between `b` and `c`. Its frame is popped again, so `c` is compared with
      `b` and not with `y`, and nothing is reported. */
  method NestedScope(naturalCompare: NaturalCompare) returns (reports: seq<Violation>, depth: nat)
    ensures reports == [] && depth == 0
  {
    var checker := new Checker(RuleOptions(None, None), naturalCompare);
    var config := Config("asc", false, false, 0, Asc);
    assert checker.config == config;
    PairOfKeys(config, naturalCompare, 2, Named("x"), Named("y"));
    assert LexLe("x", "y") && LexLe("a", "b") && LexLe("b", "c");
    assert IsValidOrder(Asc, naturalCompare, "a", "b") && IsValidOrder(Asc, naturalCompare, "b", "c");
    checker.EnterScope(3);
    assert checker.stack == [Frame(None, 3)] && checker.violations == [];
    checker.CheckBinding(true, Some("a"), Some("a"));
    assert checker.stack == [Frame(Some("a"), 3)] && checker.violations == [];
    checker.CheckBinding(true, Some("b"), Some("b"));
    assert checker.stack == [Frame(Some("b"), 3)] && checker.violations == [];
    checker.CheckScope([Key(Some("x"), Some("x")), Key(Some("y"), Some("y"))]);
    assert checker.stack == [Frame(Some("b"), 3)] && checker.violations == [];
    checker.CheckBinding(true, Some("c"), Some("c"));
    assert checker.stack == [Frame(Some("c"), 3)] && checker.violations == [];
    checker.ExitScope();
    reports, depth := checker.violations, |checker.stack|;
  }
}
