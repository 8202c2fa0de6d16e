/** Option parsing at the start of `create`: the order, the two flags, the
    minimum key count and the comparator they select, fixed for the whole
    traversal. */
module RuleConfig {

  import opened Wrappers
  import opened Orders

  /** The second option, an object whose fields may each be absent. */
  datatype Settings = Settings(caseSensitive: Option<bool>, natural: Option<bool>, minKeys: Option<int>)

  /** The rule's option list: an optional order string and an optional
      settings object. */
  datatype RuleOptions = RuleOptions(order: Option<string>, settings: Option<Settings>)

  /** What the configuration schema admits: the order is "asc" or "desc"
      and `minKeys` is at least 2. */
  predicate SchemaValid(options: RuleOptions)
  {
    (options.order.None? || options.order.value == "asc" || options.order.value == "desc")
    && (options.settings.Some? && options.settings.value.minKeys.Some? ==>
          options.settings.value.minKeys.value >= 2)
  }

  /** The parsed configuration. `minKeys` is 0 when no gate applies. */
  datatype Config = Config(order: string, insensitive: bool, natural: bool, minKeys: nat, comparator: OrderName)
  {
    /** The message label for case folding. */
    function InsensitiveLabel(): string { if insensitive then "insensitive " else "" }

    /** The message label for natural ordering. */
    function NaturalLabel(): string { if natural then "natural " else "" }
  }

  /** The source's gate `numKeys < minKeys`, where `minKeys` is `undefined`
      (and the comparison false) unless a settings object carries it. */
  predicate BelowMinKeys(options: RuleOptions, numKeys: nat)
  {
    options.settings.Some? && options.settings.value.minKeys.Some?
    && numKeys < options.settings.value.minKeys.value
  }

  /** Parses the options; `None` when the key string is none of the table's
      eight keys (the schema admits no such options). */
  function Parse(options: RuleOptions): (r: Option<Config>)
    ensures SchemaValid(options) ==> r.Some?
    ensures r.Some? ==> r.value.order == (if options.order.None? || options.order == Some("") then "asc" else options.order.value)
    ensures r.Some? ==> (r.value.insensitive <==> options.settings.Some? && options.settings.value.caseSensitive == Some(false))
    ensures r.Some? ==> (r.value.natural <==> options.settings.Some? && options.settings.value.natural == Some(true))
    ensures r.Some? ==> r.value.comparator.TableKey() == OrderKey(r.value.order, r.value.insensitive, r.value.natural)
    ensures r.Some? && SchemaValid(options) ==>
              && r.value.comparator.IsDescending() == (options.order == Some("desc"))
              && r.value.comparator.IsInsensitive() == r.value.insensitive
              && r.value.comparator.IsNatural() == r.value.natural
  {
    var order := if options.order.None? || options.order.value == "" then "asc" else options.order.value;
    var insensitive := options.settings.Some? && options.settings.value.caseSensitive == Some(false);
    var natural := options.settings.Some? && options.settings.value.natural == Some(true);
    var minKeys: nat :=
      if options.settings.Some? && options.settings.value.minKeys.Some? && options.settings.value.minKeys.value > 0
      then options.settings.value.minKeys.value else 0;
    match SelectOrder(order, insensitive, natural)
    case None => None
    case Some(name) =>
      Some(Config(order, insensitive, natural, minKeys, name))
  }

  /** The selection is keyed by string concatenation, so an order string the
      schema rejects can still name an entry: "descI" without folding selects
      the folding descending comparator while the message label stays empty. */
  lemma UnvalidatedOrderStillSelects()
    ensures var r := Parse(RuleOptions(Some("descI"), None));
            r.Some? && r.value.comparator == DescI && !r.value.insensitive
  {
    assert OrderKey("descI", false, false) == "descI";
  }

  /** The parsed `minKeys` gates a scope exactly when the source's
      `numKeys < minKeys` holds. */
  lemma ParsedGate(options: RuleOptions, numKeys: nat)
    requires Parse(options).Some?
    ensures numKeys < Parse(options).value.minKeys <==> BelowMinKeys(options, numKeys)
  {
  }

  /** With no options at all the rule compares ordinally, ascending, and
      without a minimum key count. */
  lemma Defaults()
    ensures Parse(RuleOptions(None, None)) == Some(Config("asc", false, false, 0, Asc))
  {
  }
}
