/** The comparator table of the rule (`isValidOrders`) and the one-shot
    selection of its active entry from the options.

    `a <= b` on JavaScript strings compares code units left to right; here it
    is `LexLe` over Dafny characters. `toLowerCase` is modelled on ASCII
    letters only, and `natural-compare` is a parameter of type
    `NaturalCompare` about which nothing is assumed. */
module Orders {

  import opened Wrappers

  /** The external natural (digit-run aware) comparison: negative, zero or
      positive like a classic three-way comparator. */
  type NaturalCompare = (string, string) -> int

  /** Ordinal `a <= b`: `a` is a prefix of `b`, or the first differing
      character of `a` is the smaller. */
  predicate LexLe(a: string, b: string): (r: bool)
    ensures a <= b ==> r
    ensures r && |a| > 0 ==> |b| > 0 && a[0] <= b[0]
    ensures |a| > 0 && |b| > 0 && a[0] != b[0] ==> (r <==> a[0] < b[0])
    decreases |a|
  {
    |a| == 0 || (|b| > 0 && (a[0] < b[0] || (a[0] == b[0] && LexLe(a[1..], b[1..]))))
  }

  lemma {:induction false} LexLeReflexive(a: string)
    ensures LexLe(a, a)
    decreases |a|
  {
    if |a| > 0 {
      LexLeReflexive(a[1..]);
    }
  }

  lemma {:induction false} LexLeTotal(a: string, b: string)
    ensures LexLe(a, b) || LexLe(b, a)
    decreases |a|
  {
    if |a| > 0 && |b| > 0 && a[0] == b[0] {
      LexLeTotal(a[1..], b[1..]);
    }
  }

  lemma {:induction false} LexLeAntisymmetric(a: string, b: string)
    requires LexLe(a, b) && LexLe(b, a)
    ensures a == b
    decreases |a|
  {
    if |a| > 0 {
      LexLeAntisymmetric(a[1..], b[1..]);
      assert a == [a[0]] + a[1..] && b == [b[0]] + b[1..];
    }
  }

  lemma {:induction false} LexLeTransitive(a: string, b: string, c: string)
    requires LexLe(a, b) && LexLe(b, c)
    ensures LexLe(a, c)
    decreases |a|
  {
    if |a| > 0 && a[0] == b[0] && b[0] == c[0] {
      LexLeTransitive(a[1..], b[1..], c[1..]);
    }
  }

  /** The first position where two strings differ decides ordinal `<=`. */
  lemma {:induction false} LexLeFirstDifference(a: string, b: string, k: nat)
    requires k < |a| && k < |b| && a[..k] == b[..k] && a[k] != b[k]
    ensures LexLe(a, b) <==> a[k] < b[k]
    decreases k
  {
    if k > 0 {
      assert a[0] == a[..k][0] == b[..k][0] == b[0];
      assert a[1..][..k - 1] == a[..k][1..] == b[..k][1..] == b[1..][..k - 1];
      LexLeFirstDifference(a[1..], b[1..], k - 1);
    }
  }

  /** A proper extension of a string is never before it. */
  lemma {:induction false} LexLeProperExtension(a: string, b: string)
    requires b < a
    ensures !LexLe(a, b)
    decreases |b|
  {
    if |b| > 0 {
      assert a[0] == b[0];
      assert b[1..] < a[1..];
      LexLeProperExtension(a[1..], b[1..]);
    }
  }

  /** ASCII lower-casing of one character. */
  function LowerChar(c: char): char
  {
    if 'A' <= c <= 'Z' then (c as int + 32) as char else c
  }

  /** `String.prototype.toLowerCase`, restricted to ASCII letters. */
  function ToLower(s: string): (r: string)
    ensures |r| == |s|
    ensures forall i :: 0 <= i < |r| ==> !('A' <= r[i] <= 'Z')
    ensures forall i :: 0 <= i < |s| && !('A' <= s[i] <= 'Z') ==> r[i] == s[i]
    ensures forall i :: 0 <= i < |s| && 'A' <= s[i] <= 'Z' ==> r[i] as int == s[i] as int + 32
  {
    seq(|s|, i requires 0 <= i < |s| => LowerChar(s[i]))
  }

  lemma ToLowerIdempotent(s: string)
    ensures ToLower(ToLower(s)) == ToLower(s)
  {
  }

  /** The eight entries of the table: direction x case folding x natural. */
  datatype OrderName = Asc | AscI | AscN | AscIN | Desc | DescI | DescN | DescIN
  {
    predicate IsDescending() { Desc? || DescI? || DescN? || DescIN? }
    predicate IsInsensitive() { AscI? || AscIN? || DescI? || DescIN? }
    predicate IsNatural() { AscN? || AscIN? || DescN? || DescIN? }

    /** The entry with the same suffixes and the other direction. */
    function Mirror(): OrderName
    {
      match this
      case Asc => Desc
      case AscI => DescI
      case AscN => DescN
      case AscIN => DescIN
      case Desc => Asc
      case DescI => AscI
      case DescN => AscN
      case DescIN => AscIN
    }

    /** The entry with the same direction and naturalness, without folding. */
    function CaseSensitive(): OrderName
    {
      match this
      case AscI => Asc
      case AscIN => AscN
      case DescI => Desc
      case DescIN => DescN
      case _ => this
    }

    /** The property name under which the entry is stored in the table. */
    function TableKey(): string
    {
      match this
      case Asc => "asc"
      case AscI => "ascI"
      case AscN => "ascN"
      case AscIN => "ascIN"
      case Desc => "desc"
      case DescI => "descI"
      case DescN => "descN"
      case DescIN => "descIN"
    }
  }

  /** Whether `a` followed by `b` is in the order named by `name`. Every
      descending entry is its ascending counterpart with the arguments
      swapped. */
  function IsValidOrder(name: OrderName, naturalCompare: NaturalCompare, a: string, b: string): (r: bool)
    ensures !name.IsNatural() && !name.IsInsensitive() ==>
              (r <==> if name.IsDescending() then LexLe(b, a) else LexLe(a, b))
    ensures name.IsNatural() && !name.IsInsensitive() ==>
              (r <==> if name.IsDescending() then naturalCompare(b, a) <= 0 else naturalCompare(a, b) <= 0)
    ensures !name.IsNatural() && a == b ==> r
    decreases name.IsDescending()
  {
    LexLeReflexive(a);
    LexLeReflexive(ToLower(a));
    match name
    case Asc => LexLe(a, b)
    case AscI => LexLe(ToLower(a), ToLower(b))
    case AscN => naturalCompare(a, b) <= 0
    case AscIN => naturalCompare(ToLower(a), ToLower(b)) <= 0
    case Desc => IsValidOrder(Asc, naturalCompare, b, a)
    case DescI => IsValidOrder(AscI, naturalCompare, b, a)
    case DescN => IsValidOrder(AscN, naturalCompare, b, a)
    case DescIN => IsValidOrder(AscIN, naturalCompare, b, a)
  }

  /** Mirror symmetry: every entry holds of `(a, b)` exactly when its mirror
      holds of `(b, a)`. */
  lemma MirrorSymmetry(name: OrderName, naturalCompare: NaturalCompare, a: string, b: string)
    ensures name.Mirror().Mirror() == name
    ensures name.Mirror().IsDescending() != name.IsDescending()
    ensures IsValidOrder(name.Mirror(), naturalCompare, a, b) == IsValidOrder(name, naturalCompare, b, a)
  {
  }

  /** Under ordinal comparison two different names are valid in exactly one
      of the two directions, so one of `asc`/`desc` always reports them. */
  lemma OrdinalExactlyOne(name: OrderName, naturalCompare: NaturalCompare, a: string, b: string)
    requires !name.IsNatural() && !name.IsInsensitive()
    requires a != b
    ensures IsValidOrder(name, naturalCompare, a, b) != IsValidOrder(name.Mirror(), naturalCompare, a, b)
  {
    LexLeTotal(a, b);
    if LexLe(a, b) && LexLe(b, a) {
      LexLeAntisymmetric(a, b);
    }
  }

  /** Under case folding, names that differ only in ASCII case are valid in
      both directions. */
  lemma InsensitiveTies(name: OrderName, naturalCompare: NaturalCompare, a: string, b: string)
    requires !name.IsNatural() && name.IsInsensitive()
    requires ToLower(a) == ToLower(b)
    ensures IsValidOrder(name, naturalCompare, a, b) && IsValidOrder(name.Mirror(), naturalCompare, a, b)
  {
    LexLeReflexive(ToLower(a));
  }

  /** Reflexivity: a name followed by itself is always in order under the
      ordinal entries, and under the natural ones whenever the natural
      comparator reports equal strings as equal. */
  lemma Reflexive(name: OrderName, naturalCompare: NaturalCompare, a: string)
    requires name.IsNatural() ==> forall s :: naturalCompare(s, s) == 0
    ensures IsValidOrder(name, naturalCompare, a, a)
  {
    LexLeReflexive(a);
    LexLeReflexive(ToLower(a));
  }

  /** Case folding: an insensitive entry is the sensitive entry applied to
      the lower-cased names, and it cannot tell a name from its lower-cased
      form. */
  lemma CaseFolding(name: OrderName, naturalCompare: NaturalCompare, a: string, b: string)
    requires name.IsInsensitive()
    ensures IsValidOrder(name, naturalCompare, a, b)
         == IsValidOrder(name.CaseSensitive(), naturalCompare, ToLower(a), ToLower(b))
    ensures IsValidOrder(name, naturalCompare, ToLower(a), ToLower(b))
         == IsValidOrder(name, naturalCompare, a, b)
  {
    ToLowerIdempotent(a);
    ToLowerIdempotent(b);
  }

  /** Concrete entries of the ordinal and case-folded comparisons, including
      the ones the rule's tests rely on ("$" < "A" < "_" < "a", uppercase
      before lowercase unless folded). */
  lemma TruthTable(naturalCompare: NaturalCompare)
    ensures IsValidOrder(Asc, naturalCompare, "a", "b") && !IsValidOrder(Asc, naturalCompare, "b", "a")
    ensures IsValidOrder(Asc, naturalCompare, "A", "b") && IsValidOrder(Asc, naturalCompare, "B", "a")
    ensures !IsValidOrder(AscI, naturalCompare, "B", "a") && IsValidOrder(AscI, naturalCompare, "A", "b")
    ensures IsValidOrder(Asc, naturalCompare, "$", "A") && IsValidOrder(Asc, naturalCompare, "A", "_")
    ensures IsValidOrder(Asc, naturalCompare, "_", "a") && !IsValidOrder(Asc, naturalCompare, "_", "A")
    ensures IsValidOrder(AscI, naturalCompare, "_", "A")
    ensures IsValidOrder(Asc, naturalCompare, "b", "b_") && IsValidOrder(Asc, naturalCompare, "", "a")
    ensures IsValidOrder(Desc, naturalCompare, "b", "a") && !IsValidOrder(Desc, naturalCompare, "a", "b")
  {
  }

  /** The table lookup `isValidOrders[key]` over the table's own eight
      keys: `None` for any other key. Members the object literal inherits
      are not modelled. */
  function LookupOrder(key: string): (r: Option<OrderName>)
    ensures r.Some? ==> r.value.TableKey() == key
    ensures forall name: OrderName :: name.TableKey() == key ==> r == Some(name)
  {
    if key == "asc" then Some(Asc)
    else if key == "ascI" then Some(AscI)
    else if key == "ascN" then Some(AscN)
    else if key == "ascIN" then Some(AscIN)
    else if key == "desc" then Some(Desc)
    else if key == "descI" then Some(DescI)
    else if key == "descN" then Some(DescN)
    else if key == "descIN" then Some(DescIN)
    else None
  }

  /** The key string built from the options: the order, then "I" when
      folding case, then "N" when natural. */
  function OrderKey(order: string, insensitive: bool, natural: bool): (r: string)
    ensures |r| == |order| + (if insensitive then 1 else 0) + (if natural then 1 else 0)
    ensures r[..|order|] == order
    ensures insensitive ==> r[|order|] == 'I'
    ensures natural ==> r[|r| - 1] == 'N'
  {
    order + (if insensitive then "I" else "") + (if natural then "N" else "")
  }

  /** Comparator selection: for either valid order the lookup succeeds and
      yields the entry with that direction whose "I" suffix is present
      exactly when folding and whose "N" suffix is present exactly when
      natural. */
  function SelectOrder(order: string, insensitive: bool, natural: bool): (r: Option<OrderName>)
    ensures r.Some? ==> r.value.TableKey() == OrderKey(order, insensitive, natural)
    ensures order == "asc" || order == "desc" ==>
              r.Some? && r.value.IsDescending() == (order == "desc")
              && r.value.IsInsensitive() == insensitive && r.value.IsNatural() == natural
  {
    ValidOrderKey(order, insensitive, natural);
    LookupOrder(OrderKey(order, insensitive, natural))
  }

  /** The entry a valid order and two flags name. */
  function EntryFor(descending: bool, insensitive: bool, natural: bool): (r: OrderName)
    ensures r.IsDescending() == descending && r.IsInsensitive() == insensitive && r.IsNatural() == natural
  {
    if descending then
      (if insensitive then (if natural then DescIN else DescI) else (if natural then DescN else Desc))
    else
      (if insensitive then (if natural then AscIN else AscI) else (if natural then AscN else Asc))
  }

  /** For "asc" and "desc" the built key is the table key of the entry with
      that direction and those flags. */
  lemma ValidOrderKey(order: string, insensitive: bool, natural: bool)
    ensures order == "asc" || order == "desc" ==>
              EntryFor(order == "desc", insensitive, natural).TableKey() == OrderKey(order, insensitive, natural)
  {
  }
}
