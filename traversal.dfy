/** The visitor state of `create`: a stack of frames, one per open scope,
    and the reports handed to the host so far. The top of the stack is the
    last element of `stack`; the source links each frame to the one below it
    through `upper`. */
module Traversal {

  import opened Wrappers
  import opened PropertyNames
  import opened Orders
  import opened RuleConfig
  import opened Scope

  class Checker {
    /** Chosen once from the options; it cannot change during a traversal. */
    const config: Config
    const naturalCompare: NaturalCompare
    var stack: seq<Frame>
    var violations: seq<Violation>

    /** `create`: parse the options, select the comparator, start with no
        open scope and no report. */
    constructor (options: RuleOptions, naturalCompare: NaturalCompare)
      requires Parse(options).Some?
      ensures config == Parse(options).value && this.naturalCompare == naturalCompare
      ensures stack == [] && violations == []
    {
      config := Parse(options).value;
      this.naturalCompare := naturalCompare;
      stack := [];
      violations := [];
    }

    /** Entering a scope pushes a fresh frame with no previous name. */
    method EnterScope(numKeys: nat)
      modifies this
      ensures stack == old(stack) + [Frame(None, numKeys)]
      ensures violations == old(violations)
    {
      stack := stack + [Frame(None, numKeys)];
    }

    /** Leaving a scope pops its frame. */
    method ExitScope()
      requires |stack| > 0
      modifies this
      ensures stack == old(stack)[..|old(stack)| - 1]
      ensures violations == old(violations)
    {
      stack := stack[..|stack| - 1];
    }

    /** A spread directly inside the current scope clears only the top
        frame's previous name; any other spread changes nothing. */
    method SpreadElement(parentIsScope: bool)
      requires parentIsScope ==> |stack| > 0
      modifies this
      ensures parentIsScope ==>
                stack == old(stack)[..|old(stack)| - 1] + [ResetPrev(old(stack)[|old(stack)| - 1])]
      ensures !parentIsScope ==> stack == old(stack)
      ensures violations == old(violations)
    {
      if parentIsScope {
        var top := stack[|stack| - 1];
        top := top.(prevName := None);
        stack := stack[..|stack| - 1] + [top];
      }
    }

    /** The binding step of the function-declaration and arrow-function
        visitors: for a matched pattern, resolve the name, record it as the
        previous name when it resolves, and report when the pair is out of
        order and the scope meets the minimum key count. */
    method CheckBinding(isMatchedPattern: bool, staticName: Option<string>, keyName: Option<string>)
      requires isMatchedPattern ==> |stack| > 0
      modifies this
      ensures !isMatchedPattern ==> stack == old(stack) && violations == old(violations)
      ensures isMatchedPattern ==>
                var step := CheckKey(config, naturalCompare, old(stack)[|old(stack)| - 1],
                                     GetPropertyName(staticName, keyName));
                && stack == old(stack)[..|old(stack)| - 1] + [step.frame]
                && violations == old(violations) + Reports(step.report)
    {
      if !isMatchedPattern {
        return;
      }
      var top := stack[|stack| - 1];
      var prevName := top.prevName;
      var numKeys := top.numKeys;
      var thisName := GetPropertyName(staticName, keyName);
      if thisName.Some? {
        stack := stack[..|stack| - 1] + [top.(prevName := thisName)];
      }
      if prevName.None? || thisName.None? || numKeys < config.minKeys {
        return;
      }
      if !IsValidOrder(config.comparator, naturalCompare, prevName.value, thisName.value) {
        violations := violations + [Violation(thisName.value, prevName.value, config.order,
                                              config.InsensitiveLabel(), config.NaturalLabel())];
      }
    }

    /** One whole scope, visited in the order the visitors are called: enter
        with the entry count, visit each entry in order, exit. The stack comes back exactly
        as it was, and the new reports are those of `Scan`. */
    method CheckScope(items: seq<Item>)
      modifies this
      ensures stack == old(stack)
      ensures violations == old(violations) + Scan(config, naturalCompare, |items|, items)
    {
      EnterScope(|items|);
      var i := 0;
      while i < |items|
        invariant 0 <= i <= |items|
        invariant stack == old(stack) + [Run(config, naturalCompare, |items|, items[..i]).frame]
        invariant violations == old(violations) + Run(config, naturalCompare, |items|, items[..i]).violations
      {
        assert items[..i + 1][..i] == items[..i];
        match items[i] {
          case Spread =>
            SpreadElement(true);
          case Key(staticName, keyName) =>
            CheckBinding(true, staticName, keyName);
        }
        i := i + 1;
      }
      assert items[..|items|] == items;
      ExitScope();
    }
  }
}
