/** The key-name resolver of the rule (`getPropertyName`).

    The static name computed by the host's AST utilities and the `name` of the
    key node are inputs: `None` stands for `null` and for `undefined`. */
module PropertyNames {

  import opened Wrappers

  /** The canonical comparison name of a binding, or `None` when it has none.
      A static name wins whenever it is present, even the empty string; the
      key identifier's name is the fallback, and an empty identifier name is
      falsy and therefore treated as no name at all. */
  function GetPropertyName(staticName: Option<string>, keyName: Option<string>): (r: Option<string>)
    ensures staticName.Some? ==> r == staticName
    ensures staticName.None? ==> (r.Some? <==> keyName.Some? && keyName.value != "")
    ensures staticName.None? && r.Some? ==> r == keyName
    ensures r == None <==> staticName == None && (keyName == None || keyName == Some(""))
  {
    if staticName.Some? then
      staticName
    else if keyName.Some? && keyName.value != "" then
      keyName
    else
      None
  }
}
