/** The ordering check of one scope, as pure functions: the object whose
    entry pushes a frame in the visitors.

    A scope is the sequence of its entries: keyed bindings and spreads. The
    frame of the scope remembers only the last resolved name since entry or
    since the last spread, and the number of entries; `Run` folds the
    binding step and the spread reset over the entries, and `Expected`
    states the same result independently, pair by pair. */
module Scope {

  import opened Wrappers
  import opened PropertyNames
  import opened Orders
  import opened RuleConfig

  /** The per-scope state: the previous resolved name (`None` after entry
      and after a spread) and the scope's entry count. */
  datatype Frame = Frame(prevName: Option<string>, numKeys: nat)

  /** One report: the offending name, the name before it, and the labels of
      the active comparator for the message. */
  datatype Violation = Violation(thisName: string, prevName: string, order: string, insensitive: string, natural: string)

  /** An entry of a scope: a keyed binding, with the inputs of the name
      resolver, or a spread. */
  datatype Item = Key(staticName: Option<string>, keyName: Option<string>) | Spread
  {
    /** The resolved name of a keyed binding; a spread has none. */
    function Name(): Option<string>
    {
      match this
      case Key(staticName, keyName) => GetPropertyName(staticName, keyName)
      case Spread => None
    }
  }

  /** The result of one step: the new frame and the report it makes, if any. */
  datatype Step = Step(frame: Frame, report: Option<Violation>)

  /** The report for `thisName` following `prevName`. */
  function Report(config: Config, prevName: string, thisName: string): Violation
  {
    Violation(thisName, prevName, config.order, config.InsensitiveLabel(), config.NaturalLabel())
  }

  /** Zero or one report as a sequence. */
  function Reports(report: Option<Violation>): seq<Violation>
  {
    if report.Some? then [report.value] else []
  }

  /** The binding step. A resolved name becomes the frame's previous name and
      an unresolved one leaves the frame as it was; a report is made exactly
      when both names are present, the scope meets the minimum key count and
      the pair is out of order. */
  function CheckKey(config: Config, naturalCompare: NaturalCompare, frame: Frame, thisName: Option<string>): (r: Step)
    ensures r.frame.numKeys == frame.numKeys
    ensures r.frame.prevName == if thisName.Some? then thisName else frame.prevName
    ensures thisName.None? ==> r.frame == frame
    ensures r.report.Some? <==>
              frame.prevName.Some? && thisName.Some? && frame.numKeys >= config.minKeys
              && !IsValidOrder(config.comparator, naturalCompare, frame.prevName.value, thisName.value)
    ensures r.report.Some? ==> r.report.value == Report(config, frame.prevName.value, thisName.value)
  {
    var next := if thisName.Some? then frame.(prevName := thisName) else frame;
    if frame.prevName.None? || thisName.None? || frame.numKeys < config.minKeys then
      Step(next, None)
    else if !IsValidOrder(config.comparator, naturalCompare, frame.prevName.value, thisName.value) then
      Step(next, Some(Report(config, frame.prevName.value, thisName.value)))
    else
      Step(next, None)
  }

  /** The spread reset: only the previous name is cleared. */
  function ResetPrev(frame: Frame): (r: Frame)
    ensures r.prevName.None? && r.numKeys == frame.numKeys
  {
    frame.(prevName := None)
  }

  /** One entry of a scope: a spread resets the frame and reports nothing;
      an unresolvable binding leaves everything as it was; a resolvable one
      takes the binding step. */
  function Apply(config: Config, naturalCompare: NaturalCompare, frame: Frame, item: Item): (r: Step)
    ensures r.frame.numKeys == frame.numKeys
    ensures item.Spread? ==> r.frame.prevName.None? && r.report.None?
    ensures item.Key? && item.Name().None? ==> r == Step(frame, None)
    ensures item.Name().Some? ==> r.frame.prevName == item.Name()
  {
    match item
    case Spread => Step(ResetPrev(frame), None)
    case Key(_, _) => CheckKey(config, naturalCompare, frame, item.Name())
  }

  /** The frame and the reports after the entries of a scope with `numKeys`
      entries, starting from a fresh frame. */
  datatype Outcome = Outcome(frame: Frame, violations: seq<Violation>)

  function Run(config: Config, naturalCompare: NaturalCompare, numKeys: nat, items: seq<Item>): (r: Outcome)
    ensures r.frame.numKeys == numKeys
    ensures |r.violations| <= |items|
    ensures forall v :: v in r.violations ==>
              v.order == config.order && v.insensitive == config.InsensitiveLabel() && v.natural == config.NaturalLabel()
    decreases |items|
  {
    if items == [] then
      Outcome(Frame(None, numKeys), [])
    else
      var before := Run(config, naturalCompare, numKeys, items[..|items| - 1]);
      var step := Apply(config, naturalCompare, before.frame, items[|items| - 1]);
      Outcome(step.frame, before.violations + Reports(step.report))
  }

  /** The reports of one scope, in order: at most one per entry, each with
      the active order and labels. */
  function Scan(config: Config, naturalCompare: NaturalCompare, numKeys: nat, items: seq<Item>): (r: seq<Violation>)
    ensures |r| <= |items|
    ensures forall v :: v in r ==>
              v.order == config.order && v.insensitive == config.InsensitiveLabel() && v.natural == config.NaturalLabel()
  {
    Run(config, naturalCompare, numKeys, items).violations
  }

  // ---------------------------------------------------------------------
  // The independent statement: adjacent pairs.
  // ---------------------------------------------------------------------

  /** The entry at `i` is the nearest named entry before position `j`, with
      only unresolvable keyed bindings (and no spread) between them. */
  ghost predicate Adjacent(items: seq<Item>, i: int, j: int)
  {
    0 <= i < j <= |items| && items[i].Name().Some?
    && forall k :: i < k < j ==> items[k].Key? && items[k].Name().None?
  }

  /** The name an entry at position `j` is compared against, found by
      looking backwards: the nearest resolved name, unless a spread comes
      first. */
  function PrevName(items: seq<Item>, j: nat): Option<string>
    requires j <= |items|
  {
    if j == 0 then None
    else if items[j - 1].Spread? then None
    else if items[j - 1].Name().Some? then items[j - 1].Name()
    else PrevName(items, j - 1)
  }

  /** `PrevName` finds exactly the adjacent partner, when there is one. */
  lemma {:induction false} PrevNameIsAdjacent(items: seq<Item>, j: nat)
    requires j <= |items|
    ensures forall i :: Adjacent(items, i, j) ==> PrevName(items, j) == items[i].Name()
    ensures PrevName(items, j).Some? ==> exists i :: Adjacent(items, i, j) && items[i].Name() == PrevName(items, j)
  {
    if j > 0 && items[j - 1].Key? && items[j - 1].Name().None? {
      PrevNameIsAdjacent(items, j - 1);
      forall i | Adjacent(items, i, j) ensures PrevName(items, j) == items[i].Name() {
        assert i != j - 1;
        assert Adjacent(items, i, j - 1);
      }
      if PrevName(items, j).Some? {
        var i :| Adjacent(items, i, j - 1) && items[i].Name() == PrevName(items, j - 1);
        assert Adjacent(items, i, j);
      }
    } else if j > 0 && items[j - 1].Name().Some? {
      assert Adjacent(items, j - 1, j);
    } else if j > 0 {
      assert items[j - 1].Spread?;
    }
  }

  /** The report, if any, for the entry at position `j`. */
  function PairReport(config: Config, naturalCompare: NaturalCompare, numKeys: nat, items: seq<Item>, j: nat): seq<Violation>
    requires j < |items|
  {
    match (PrevName(items, j), items[j].Name())
    case (Some(p), Some(t)) =>
      if numKeys >= config.minKeys && !IsValidOrder(config.comparator, naturalCompare, p, t)
      then [Report(config, p, t)] else []
    case _ => []
  }

  /** The reports of the first `j` entries, one per failing adjacent pair,
      in the order of the later entry of each pair. */
  function Expected(config: Config, naturalCompare: NaturalCompare, numKeys: nat, items: seq<Item>, j: nat): seq<Violation>
    requires j <= |items|
  {
    if j == 0 then [] else
      Expected(config, naturalCompare, numKeys, items, j - 1) + PairReport(config, naturalCompare, numKeys, items, j - 1)
  }

  /** After any prefix, the frame holds the backward-found partner name and
      the reports are those of the adjacent pairs so far. */
  lemma {:induction false} RunMatchesExpected(config: Config, naturalCompare: NaturalCompare, numKeys: nat, items: seq<Item>, j: nat)
    requires j <= |items|
    ensures Run(config, naturalCompare, numKeys, items[..j])
         == Outcome(Frame(PrevName(items, j), numKeys), Expected(config, naturalCompare, numKeys, items, j))
  {
    if j > 0 {
      RunMatchesExpected(config, naturalCompare, numKeys, items, j - 1);
      assert items[..j][..j - 1] == items[..j - 1];
      assert items[..j][j - 1] == items[j - 1];
    }
  }

  /** The adjacent-pair law: the reports of a scope are exactly the failing
      adjacent pairs, in order, one per pair. */
  lemma AdjacentPairLaw(config: Config, naturalCompare: NaturalCompare, numKeys: nat, items: seq<Item>)
    ensures Scan(config, naturalCompare, numKeys, items) == Expected(config, naturalCompare, numKeys, items, |items|)
  {
    RunMatchesExpected(config, naturalCompare, numKeys, items, |items|);
    assert items[..|items|] == items;
  }

  // ---------------------------------------------------------------------
  // Laws derived about whole scopes.
  // ---------------------------------------------------------------------

  /** One more entry: `Run` extends the previous outcome by one step. */
  lemma RunSnoc(config: Config, naturalCompare: NaturalCompare, numKeys: nat, items: seq<Item>, x: Item)
    ensures var before := Run(config, naturalCompare, numKeys, items);
            var step := Apply(config, naturalCompare, before.frame, x);
            Run(config, naturalCompare, numKeys, items + [x]) == Outcome(step.frame, before.violations + Reports(step.report))
  {
    assert (items + [x])[..|items|] == items;
  }

  /** Extending both the spread-split scope and its right part by one entry
      keeps them in step. */
  lemma RunAcrossSpreadStep(config: Config, naturalCompare: NaturalCompare, numKeys: nat, a: seq<Item>, b: seq<Item>, x: Item)
    requires Run(config, naturalCompare, numKeys, a + [Spread] + b)
          == Outcome(Run(config, naturalCompare, numKeys, b).frame,
                     Run(config, naturalCompare, numKeys, a).violations + Run(config, naturalCompare, numKeys, b).violations)
    ensures Run(config, naturalCompare, numKeys, a + [Spread] + b + [x])
         == Outcome(Run(config, naturalCompare, numKeys, b + [x]).frame,
                    Run(config, naturalCompare, numKeys, a).violations + Run(config, naturalCompare, numKeys, b + [x]).violations)
  {
    var s := a + [Spread] + b;
    var ra, rb := Run(config, naturalCompare, numKeys, a), Run(config, naturalCompare, numKeys, b);
    var step := Apply(config, naturalCompare, rb.frame, x);
    AppendAssociative(ra.violations, rb.violations, Reports(step.report));
    RunSnoc(config, naturalCompare, numKeys, s, x);
    RunSnoc(config, naturalCompare, numKeys, b, x);
  }

  lemma AppendAssociative(x: seq<Violation>, y: seq<Violation>, z: seq<Violation>)
    ensures (x + y) + z == x + (y + z)
  {
  }

  lemma {:induction false} RunAcrossSpread(config: Config, naturalCompare: NaturalCompare, numKeys: nat, a: seq<Item>, b: seq<Item>)
    ensures Run(config, naturalCompare, numKeys, a + [Spread] + b)
         == Outcome(Run(config, naturalCompare, numKeys, b).frame,
                    Run(config, naturalCompare, numKeys, a).violations + Run(config, naturalCompare, numKeys, b).violations)
    decreases |b|
  {
    if b == [] {
      RunSnoc(config, naturalCompare, numKeys, a, Spread);
      assert a + [Spread] + b == a + [Spread];
    } else {
      var b', x := b[..|b| - 1], b[|b| - 1];
      assert b' + [x] == b;
      assert a + [Spread] + b' + [x] == a + [Spread] + b;
      RunAcrossSpread(config, naturalCompare, numKeys, a, b');
      RunAcrossSpreadStep(config, naturalCompare, numKeys, a, b', x);
    }
  }

  /** Spread reset: the names on the two sides of a spread are never
      compared; the scope reports what each side reports on its own. */
  lemma SpreadSeparates(config: Config, naturalCompare: NaturalCompare, numKeys: nat, a: seq<Item>, b: seq<Item>)
    ensures Scan(config, naturalCompare, numKeys, a + [Spread] + b)
         == Scan(config, naturalCompare, numKeys, a) + Scan(config, naturalCompare, numKeys, b)
  {
    RunAcrossSpread(config, naturalCompare, numKeys, a, b);
  }

  lemma {:induction false} RunSkipsUnnamed(config: Config, naturalCompare: NaturalCompare, numKeys: nat, a: seq<Item>, u: Item, b: seq<Item>)
    requires u.Key? && u.Name().None?
    ensures Run(config, naturalCompare, numKeys, a + [u] + b) == Run(config, naturalCompare, numKeys, a + b)
    decreases |b|
  {
    var s := a + [u] + b;
    if b == [] {
      assert s[..|s| - 1] == a;
      assert a + b == a;
    } else {
      var b' := b[..|b| - 1];
      RunSkipsUnnamed(config, naturalCompare, numKeys, a, u, b');
      assert s[..|s| - 1] == a + [u] + b';
      assert (a + b)[..|a + b| - 1] == a + b';
      assert s[|s| - 1] == (a + b)[|a + b| - 1];
    }
  }

  /** Unresolvable-key transparency: inserting a binding whose name cannot
      be resolved anywhere in a scope changes none of its reports. */
  lemma UnnamedTransparent(config: Config, naturalCompare: NaturalCompare, numKeys: nat, a: seq<Item>, u: Item, b: seq<Item>)
    requires u.Key? && u.Name().None?
    ensures Scan(config, naturalCompare, numKeys, a + [u] + b) == Scan(config, naturalCompare, numKeys, a + b)
  {
    RunSkipsUnnamed(config, naturalCompare, numKeys, a, u, b);
  }

  /** The `minKeys` gate, below the minimum: a scope with fewer entries than
      the minimum reports nothing. */
  lemma {:induction false} BelowMinKeysSilent(config: Config, naturalCompare: NaturalCompare, numKeys: nat, items: seq<Item>)
    requires numKeys < config.minKeys
    ensures Scan(config, naturalCompare, numKeys, items) == []
    decreases |items|
  {
    if items != [] {
      BelowMinKeysSilent(config, naturalCompare, numKeys, items[..|items| - 1]);
    }
  }

  /** The `minKeys` gate, at or above the minimum: the scope reports exactly
      what it would report with no gate at all. */
  lemma {:induction false} AtMinKeysUngated(config: Config, naturalCompare: NaturalCompare, numKeys: nat, items: seq<Item>)
    requires numKeys >= config.minKeys
    ensures Run(config, naturalCompare, numKeys, items) == Run(config.(minKeys := 0), naturalCompare, numKeys, items)
    decreases |items|
  {
    if items != [] {
      AtMinKeysUngated(config, naturalCompare, numKeys, items[..|items| - 1]);
    }
  }

  /** Two equal names in a row are never reported, under the natural
      entries as long as the natural comparator reports equal strings as
      equal: no report names the same key twice. */
  lemma {:induction false} NoSelfReports(config: Config, naturalCompare: NaturalCompare, numKeys: nat, items: seq<Item>)
    requires config.comparator.IsNatural() ==> forall s :: naturalCompare(s, s) == 0
    ensures forall v :: v in Scan(config, naturalCompare, numKeys, items) ==> v.thisName != v.prevName
    decreases |items|
  {
    if items != [] {
      NoSelfReports(config, naturalCompare, numKeys, items[..|items| - 1]);
      var before := Run(config, naturalCompare, numKeys, items[..|items| - 1]);
      if before.frame.prevName.Some? {
        Reflexive(config.comparator, naturalCompare, before.frame.prevName.value);
      }
    }
  }

  /** The key count only matters through the gate: two counts on the same
      side of `minKeys` give the same previous name and the same reports. */
  lemma {:induction false} RunCountIrrelevant(config: Config, naturalCompare: NaturalCompare, n: nat, m: nat, items: seq<Item>)
    requires n >= config.minKeys && m >= config.minKeys
    ensures Run(config, naturalCompare, n, items).frame.prevName == Run(config, naturalCompare, m, items).frame.prevName
    ensures Run(config, naturalCompare, n, items).violations == Run(config, naturalCompare, m, items).violations
    decreases |items|
  {
    if items != [] {
      RunCountIrrelevant(config, naturalCompare, n, m, items[..|items| - 1]);
    }
  }

  /** Unresolvable-key transparency with the scope's own entry count: a
      binding whose name cannot be resolved also counts as an entry, so it
      changes no report as long as it does not carry the count across
      `minKeys`. */
  lemma UnnamedTransparentInScope(config: Config, naturalCompare: NaturalCompare, a: seq<Item>, u: Item, b: seq<Item>)
    requires u.Key? && u.Name().None?
    requires |a + b| >= config.minKeys || |a + b| + 1 < config.minKeys
    ensures Scan(config, naturalCompare, |a + [u] + b|, a + [u] + b) == Scan(config, naturalCompare, |a + b|, a + b)
  {
    var n := |a + b|;
    assert |a + [u] + b| == n + 1;
    if n >= config.minKeys {
      RunSkipsUnnamed(config, naturalCompare, n + 1, a, u, b);
      RunCountIrrelevant(config, naturalCompare, n + 1, n, a + b);
    } else {
      BelowMinKeysSilent(config, naturalCompare, n + 1, a + [u] + b);
      BelowMinKeysSilent(config, naturalCompare, n, a + b);
    }
  }

  /** At the boundary the inserted binding lifts the gate: without it the
      scope is one entry short and silent, with it the scope reports what
      the ungated check reports. */
  lemma UnnamedLiftsGate(config: Config, naturalCompare: NaturalCompare, a: seq<Item>, u: Item, b: seq<Item>)
    requires u.Key? && u.Name().None?
    requires |a + b| + 1 == config.minKeys
    ensures Scan(config, naturalCompare, |a + b|, a + b) == []
    ensures Scan(config, naturalCompare, |a + [u] + b|, a + [u] + b)
         == Scan(config.(minKeys := 0), naturalCompare, |a + b|, a + b)
  {
    var n := |a + b|;
    assert |a + [u] + b| == n + 1;
    BelowMinKeysSilent(config, naturalCompare, n, a + b);
    RunSkipsUnnamed(config, naturalCompare, n + 1, a, u, b);
    AtMinKeysUngated(config, naturalCompare, n + 1, a + b);
    RunCountIrrelevant(config.(minKeys := 0), naturalCompare, n + 1, n, a + b);
  }
}
