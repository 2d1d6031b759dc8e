/** The guard on request input: a recursive walk that refuses trees that are too deep, too wide, have too many
    fields or hold an unsafe field name or an unsupported value. */
module InputTree {
  import opened Wrappers

  /** A request value: null, undefined, booleans, numbers and strings are scalars; what is neither an array
      nor a plain object is unsupported. */
  datatype Node = Scalar | List(items: seq<Node>) | Object(fields: seq<Field>) | Unsupported

  datatype Field = Field(key: string, child: Node)

  datatype Limits = Limits(maxDepth: nat, maxKeys: nat, maxArrayLength: nat)

  datatype Error = TooDeep | TooManyItems | UnsupportedValue | TooManyFields | UnsafeFieldName(key: string)

  /** The options of a call; what is not given has its default. */
  datatype Options = Options(maxDepth: Option<nat>, maxKeys: Option<nat>, maxArrayLength: Option<nat>)

  function LimitsOf(options: Options): Limits {
    Limits(if options.maxDepth.Some? then options.maxDepth.value else 12,
           if options.maxKeys.Some? then options.maxKeys.value else 2_000,
           if options.maxArrayLength.Some? then options.maxArrayLength.value else 2_000)
  }

  const DANGEROUS_EXACT_KEYS: set<string> := {"__proto__", "prototype", "constructor"}

  predicate HasDangerousMongoKey(key: string) {
    key in DANGEROUS_EXACT_KEYS || (key != "" && key[0] == '$') || '.' in key ||
    exists i :: 0 <= i < |key| && (key[i] < ' ' || key[i] == '\U{7F}')
  }

  // ---------- the walk as a function on the shared counter ----------

  /** The first error in traversal order, if any, and the shared counter afterwards. */
  datatype Visited = Visited(error: Option<Error>, keys: int)

  function Visit(node: Node, depth: int, keys: int, limits: Limits): Visited
    decreases node, 1
  {
    if depth > limits.maxDepth then Visited(Some(TooDeep), keys)
    else match node
      case Scalar => Visited(None, keys)
      case List(items) =>
        if |items| > limits.maxArrayLength then Visited(Some(TooManyItems), keys)
        else VisitItems(items, depth + 1, keys, limits)
      case Unsupported => Visited(Some(UnsupportedValue), keys)
      case Object(fields) => VisitFields(fields, depth + 1, keys, limits)
  }

  function VisitItems(items: seq<Node>, depth: int, keys: int, limits: Limits): Visited
    decreases items, 0
  {
    if items == [] then Visited(None, keys)
    else
      var first := Visit(items[0], depth, keys, limits);
      if first.error.Some? then first else VisitItems(items[1..], depth, first.keys, limits)
  }

  function VisitFields(fields: seq<Field>, depth: int, keys: int, limits: Limits): Visited
    decreases fields, 0
  {
    if fields == [] then Visited(None, keys)
    else if keys + 1 > limits.maxKeys then Visited(Some(TooManyFields), keys + 1)
    else if HasDangerousMongoKey(fields[0].key) then Visited(Some(UnsafeFieldName(fields[0].key)), keys + 1)
    else
      var first := Visit(fields[0].child, depth, keys + 1, limits);
      if first.error.Some? then first else VisitFields(fields[1..], depth, first.keys, limits)
  }

  /** The closure over the shared counter. */
  class Guard {
    const limits: Limits
    var visitedKeys: int

    constructor (limits: Limits)
      ensures this.limits == limits && visitedKeys == 0
    {
      this.limits := limits;
      visitedKeys := 0;
    }

    method VisitNode(node: Node, depth: int) returns (error: Option<Error>)
      modifies this
      ensures Visited(error, visitedKeys) == Visit(node, depth, old(visitedKeys), limits)
      decreases node
    {
      if depth > limits.maxDepth {
        return Some(TooDeep);
      }
      match node {
        case Scalar =>
          return None;
        case List(items) =>
          if |items| > limits.maxArrayLength {
            return Some(TooManyItems);
          }
          var i := 0;
          while i < |items|
            invariant 0 <= i <= |items|
            invariant VisitItems(items, depth + 1, old(visitedKeys), limits)
                   == VisitItems(items[i..], depth + 1, visitedKeys, limits)
          {
            error := VisitNode(items[i], depth + 1);
            if error.Some? {
              return;
            }
            assert items[i..][1..] == items[i + 1..];
            i := i + 1;
          }
          return None;
        case Unsupported =>
          return Some(UnsupportedValue);
        case Object(fields) =>
          var i := 0;
          while i < |fields|
            invariant 0 <= i <= |fields|
            invariant VisitFields(fields, depth + 1, old(visitedKeys), limits)
                   == VisitFields(fields[i..], depth + 1, visitedKeys, limits)
          {
            hide HasDangerousMongoKey;
            visitedKeys := visitedKeys + 1;
            if visitedKeys > limits.maxKeys {
              return Some(TooManyFields);
            }
            if HasDangerousMongoKey(fields[i].key) {
              return Some(UnsafeFieldName(fields[i].key));
            }
            assert fields[i].child < node;
            error := VisitNode(fields[i].child, depth + 1);
            if error.Some? {
              return;
            }
            assert fields[i..][1..] == fields[i + 1..];
            i := i + 1;
          }
          return None;
      }
    }
  }

  method AssertSafeInputTree(value: Node, options: Options) returns (error: Option<Error>)
    ensures error.None? <==>
              Accepted(value, Limits(match options.maxDepth case None => 12 case Some(n) => n,
                                     match options.maxKeys case None => 2000 case Some(n) => n,
                                     match options.maxArrayLength case None => 2000 case Some(n) => n))
    ensures error.None? ==> forall p: nat :: ErrorAt(Trace(value, 0), 0, LimitsOf(options), p).None?
    ensures error.Some? ==> exists p: nat :: IsFirstError(Trace(value, 0), 0, LimitsOf(options), p, error)
  {
    var limits := LimitsOf(options);
    var guard := new Guard(limits);
    error := guard.VisitNode(value, 0);
    AcceptsIff(value, 0, 0, limits);
    VisitIsScan(value, 0, 0, limits);
    ScanFinds(Trace(value, 0), 0, limits);
  }

  // ---------- the trees that pass, without a walk ----------

  /** How far below the node its deepest node lies. */
  function Height(node: Node): (h: nat)
    decreases node, 1
  {
    match node
    case List(items) => ItemsHeight(items)
    case Object(fields) => FieldsHeight(fields)
    case _ => 0
  }

  function ItemsHeight(items: seq<Node>): (h: nat)
    decreases items, 0
  {
    if items == [] then 0 else Max(1 + Height(items[0]), ItemsHeight(items[1..]))
  }

  function FieldsHeight(fields: seq<Field>): (h: nat)
    decreases fields, 0
  {
    if fields == [] then 0 else Max(1 + Height(fields[0].child), FieldsHeight(fields[1..]))
  }

  /** The fields of all objects in the tree. */
  function TotalKeys(node: Node): (n: nat)
    decreases node, 1
  {
    match node
    case List(items) => ItemsKeys(items)
    case Object(fields) => FieldsKeys(fields)
    case _ => 0
  }

  function ItemsKeys(items: seq<Node>): (n: nat)
    decreases items, 0
  {
    if items == [] then 0 else TotalKeys(items[0]) + ItemsKeys(items[1..])
  }

  function FieldsKeys(fields: seq<Field>): (n: nat)
    decreases fields, 0
  {
    if fields == [] then 0 else 1 + TotalKeys(fields[0].child) + FieldsKeys(fields[1..])
  }

  /** Every array is short enough, every field name safe and every value supported. */
  predicate WellShaped(node: Node, maxArrayLength: int)
    decreases node
  {
    match node
    case Scalar => true
    case Unsupported => false
    case List(items) =>
      |items| <= maxArrayLength && forall i :: 0 <= i < |items| ==> WellShaped(items[i], maxArrayLength)
    case Object(fields) =>
      forall i :: 0 <= i < |fields| ==>
        !HasDangerousMongoKey(fields[i].key) && assert fields[i] in fields; WellShaped(fields[i].child, maxArrayLength)
  }

  predicate Accepted(tree: Node, limits: Limits) {
    Height(tree) <= limits.maxDepth && TotalKeys(tree) <= limits.maxKeys && WellShaped(tree, limits.maxArrayLength)
  }

  /** The walk finds no error exactly in the trees within the limits, and then the shared counter has grown by
      the number of fields, wherever in the recursion it stood. */
  lemma {:induction false} AcceptsIff(node: Node, depth: int, keys: int, limits: Limits)
    requires keys <= limits.maxKeys
    ensures var r := Visit(node, depth, keys, limits);
            && (r.error.None? <==>
                 depth + Height(node) <= limits.maxDepth && WellShaped(node, limits.maxArrayLength) &&
                 keys + TotalKeys(node) <= limits.maxKeys)
            && (r.error.None? ==> r.keys == keys + TotalKeys(node))
    decreases node, 1
  {
    if depth <= limits.maxDepth {
      match node
      case List(items) =>
        if |items| <= limits.maxArrayLength {
          ItemsAcceptsIff(items, depth + 1, keys, limits);
        }
      case Object(fields) => FieldsAcceptsIff(fields, depth + 1, keys, limits);
      case _ =>
    }
  }

  lemma {:induction false} ItemsAcceptsIff(items: seq<Node>, depth: int, keys: int, limits: Limits)
    requires keys <= limits.maxKeys && depth - 1 <= limits.maxDepth
    ensures var r := VisitItems(items, depth, keys, limits);
            && (r.error.None? <==>
                 depth - 1 + ItemsHeight(items) <= limits.maxDepth &&
                 (forall i :: 0 <= i < |items| ==> WellShaped(items[i], limits.maxArrayLength)) &&
                 keys + ItemsKeys(items) <= limits.maxKeys)
            && (r.error.None? ==> r.keys == keys + ItemsKeys(items))
    decreases items, 0
  {
    if items != [] {
      AcceptsIff(items[0], depth, keys, limits);
      var first := Visit(items[0], depth, keys, limits);
      hide WellShaped;
      assert forall i :: 1 <= i < |items| ==> items[i] == items[1..][i - 1];
      if first.error.None? {
        ItemsAcceptsIff(items[1..], depth, first.keys, limits);
      }
    }
  }

  lemma {:induction false} FieldsAcceptsIff(fields: seq<Field>, depth: int, keys: int, limits: Limits)
    requires keys <= limits.maxKeys && depth - 1 <= limits.maxDepth
    ensures var r := VisitFields(fields, depth, keys, limits);
            && (r.error.None? <==>
                 depth - 1 + FieldsHeight(fields) <= limits.maxDepth &&
                 (forall i :: 0 <= i < |fields| ==>
                   !HasDangerousMongoKey(fields[i].key) && WellShaped(fields[i].child, limits.maxArrayLength)) &&
                 keys + FieldsKeys(fields) <= limits.maxKeys)
            && (r.error.None? ==> r.keys == keys + FieldsKeys(fields))
    decreases fields, 0
  {
    hide HasDangerousMongoKey;
    if fields != [] && keys + 1 <= limits.maxKeys {
      assert fields[0].child < fields[0];
      AcceptsIff(fields[0].child, depth, keys + 1, limits);
      var first := Visit(fields[0].child, depth, keys + 1, limits);
      hide WellShaped;
      assert forall i :: 1 <= i < |fields| ==> fields[i] == fields[1..][i - 1];
      if first.error.None? {
        FieldsAcceptsIff(fields[1..], depth, first.keys, limits);
      }
    }
  }

  // ---------- the checks laid out in a row ----------

  /** One thing the walk looks at: how deep a node lies, how many items an array has, a value that is neither array nor
      plain object, the name of a field. */
  datatype Check = Depth(depth: int) | Items(count: nat) | Foreign | Name(key: string)

  /** All checks of a tree in reading order: a node before its children, a name before its value. */
  function Trace(node: Node, depth: int): seq<Check>
    decreases node, 1
  {
    [Depth(depth)] +
    match node
    case Scalar => []
    case Unsupported => [Foreign]
    case List(items) => [Items(|items|)] + ItemsTrace(items, depth + 1)
    case Object(fields) => FieldsTrace(fields, depth + 1)
  }

  function ItemsTrace(items: seq<Node>, depth: int): seq<Check>
    decreases items, 0
  {
    if items == [] then [] else Trace(items[0], depth) + ItemsTrace(items[1..], depth)
  }

  function FieldsTrace(fields: seq<Field>, depth: int): seq<Check>
    decreases fields, 0
  {
    if fields == [] then []
    else [Name(fields[0].key)] + Trace(fields[0].child, depth) + FieldsTrace(fields[1..], depth)
  }

  function NamesIn(checks: seq<Check>): nat {
    if checks == [] then 0 else (if checks[0].Name? then 1 else 0) + NamesIn(checks[1..])
  }

  /** A field name that could reach the query language or the prototype of an object. */
  predicate Unsafe(key: string) {
    || key in ["__proto__", "prototype", "constructor"]
    || "$" <= key
    || (exists c :: c in key && (c == '.' || c < ' ' || c == '\U{7F}'))
  }

  /** What check `p` finds wrong, `keys` names having been seen before the first. */
  function ErrorAt(checks: seq<Check>, keys: int, limits: Limits, p: nat): Option<Error> {
    if p >= |checks| then None
    else match checks[p]
      case Depth(depth) => if depth > limits.maxDepth then Some(TooDeep) else None
      case Items(count) => if count > limits.maxArrayLength then Some(TooManyItems) else None
      case Foreign => Some(UnsupportedValue)
      case Name(key) =>
        if keys + NamesIn(checks[..p + 1]) > limits.maxKeys then Some(TooManyFields)
        else if Unsafe(key) then Some(UnsafeFieldName(key)) else None
  }

  predicate IsFirstError(checks: seq<Check>, keys: int, limits: Limits, p: nat, error: Option<Error>) {
    error.Some? && ErrorAt(checks, keys, limits, p) == error &&
    forall q: nat :: q < p ==> ErrorAt(checks, keys, limits, q).None?
  }

  lemma UnsafeIff(key: string)
    ensures HasDangerousMongoKey(key) <==> Unsafe(key)
  {
    assert "$" <= key <==> key != "" && key[0] == '$';
    assert key in DANGEROUS_EXACT_KEYS <==> key in ["__proto__", "prototype", "constructor"];
    if i :| 0 <= i < |key| && (key[i] < ' ' || key[i] == '\U{7F}') {
      assert key[i] in key;
    }
  }

  /** The checks one after the other, up to the first that fails. */
  function Scan(checks: seq<Check>, keys: int, limits: Limits): Visited {
    if checks == [] then Visited(None, keys)
    else
      var now := keys + if checks[0].Name? then 1 else 0;
      var error := ErrorAt(checks, keys, limits, 0);
      if error.Some? then Visited(error, now) else Scan(checks[1..], now, limits)
  }

  lemma ErrorFirst(checks: seq<Check>, keys: int, limits: Limits)
    requires checks != []
    ensures ErrorAt(checks, keys, limits, 0) ==
            match checks[0]
            case Depth(depth) => if depth > limits.maxDepth then Some(TooDeep) else None
            case Items(count) => if count > limits.maxArrayLength then Some(TooManyItems) else None
            case Foreign => Some(UnsupportedValue)
            case Name(key) =>
              if keys + 1 > limits.maxKeys then Some(TooManyFields)
              else if Unsafe(key) then Some(UnsafeFieldName(key)) else None
  {
    hide Unsafe;
    assert checks[..1][1..] == [] && checks[..1][0] == checks[0];
    assert NamesIn(checks[..1]) == if checks[0].Name? then 1 else 0;
  }

  lemma ErrorLater(checks: seq<Check>, keys: int, limits: Limits, p: nat)
    requires checks != []
    ensures ErrorAt(checks, keys, limits, p + 1) ==
            ErrorAt(checks[1..], keys + if checks[0].Name? then 1 else 0, limits, p)
  {
    hide Unsafe;
    if p + 1 < |checks| {
      assert checks[..p + 2][1..] == checks[1..][..p + 1] && checks[..p + 2][0] == checks[0];
    }
  }

  /** The scan stops at the first check that finds something wrong. */
  lemma {:induction false} ScanFinds(checks: seq<Check>, keys: int, limits: Limits)
    ensures var error := Scan(checks, keys, limits).error;
            && (error.None? ==> forall p: nat :: ErrorAt(checks, keys, limits, p).None?)
            && (error.Some? ==> exists p: nat :: IsFirstError(checks, keys, limits, p, error))
  {
    if checks != [] {
      var now := keys + if checks[0].Name? then 1 else 0;
      ScanFinds(checks[1..], now, limits);
      hide ErrorAt;
      forall p: nat ensures ErrorAt(checks, keys, limits, p + 1) == ErrorAt(checks[1..], now, limits, p) {
        ErrorLater(checks, keys, limits, p);
      }
      var error := Scan(checks, keys, limits).error;
      if ErrorAt(checks, keys, limits, 0).Some? {
        assert IsFirstError(checks, keys, limits, 0, error);
      } else if error.Some? {
        var p: nat :| IsFirstError(checks[1..], now, limits, p, error);
        assert ErrorAt(checks, keys, limits, p + 1) == error;
        forall q: nat | q < p + 1 ensures ErrorAt(checks, keys, limits, q).None? {
          assert q > 0 ==> ErrorAt(checks, keys, limits, q - 1 + 1) == ErrorAt(checks[1..], now, limits, q - 1);
        }
        assert IsFirstError(checks, keys, limits, p + 1, error);
      } else {
        forall p: nat ensures ErrorAt(checks, keys, limits, p).None? {
          assert p > 0 ==> ErrorAt(checks, keys, limits, p - 1 + 1) == ErrorAt(checks[1..], now, limits, p - 1);
        }
      }
    }
  }

  lemma {:induction false} ScanJoin(a: seq<Check>, b: seq<Check>, keys: int, limits: Limits)
    ensures var first := Scan(a, keys, limits);
            Scan(a + b, keys, limits) == if first.error.Some? then first else Scan(b, first.keys, limits)
  {
    if a == [] {
      assert a + b == b;
    } else {
      assert (a + b)[1..] == a[1..] + b && (a + b)[0] == a[0];
      ErrorFirst(a, keys, limits);
      ErrorFirst(a + b, keys, limits);
      ScanJoin(a[1..], b, keys + if a[0].Name? then 1 else 0, limits);
      hide ErrorAt;
    }
  }

  lemma ScanOne(check: Check, keys: int, limits: Limits)
    ensures Scan([check], keys, limits) ==
            Visited(ErrorAt([check], keys, limits, 0), keys + if check.Name? then 1 else 0)
  {
    hide ErrorAt;
    assert [check][1..] == [];
  }

  /** The walk is the scan of the checks laid out in a row. */
  lemma {:induction false} VisitIsScan(node: Node, depth: int, keys: int, limits: Limits)
    ensures Visit(node, depth, keys, limits) == Scan(Trace(node, depth), keys, limits)
    decreases node, 1
  {
    ErrorFirst([Depth(depth)], keys, limits);
    ScanOne(Depth(depth), keys, limits);
    match node {
      case Scalar =>
        assert Trace(node, depth) == [Depth(depth)];
      case Unsupported =>
        ScanJoin([Depth(depth)], [Foreign], keys, limits);
        ErrorFirst([Foreign], keys, limits);
        ScanOne(Foreign, keys, limits);
      case List(items) =>
        var rest := [Items(|items|)] + ItemsTrace(items, depth + 1);
        ScanJoin([Depth(depth)], rest, keys, limits);
        ScanJoin([Items(|items|)], ItemsTrace(items, depth + 1), keys, limits);
        ErrorFirst([Items(|items|)], keys, limits);
        ScanOne(Items(|items|), keys, limits);
        ItemsAreScanned(items, depth + 1, keys, limits);
      case Object(fields) =>
        ScanJoin([Depth(depth)], FieldsTrace(fields, depth + 1), keys, limits);
        FieldsAreScanned(fields, depth + 1, keys, limits);
    }
  }

  lemma {:induction false} ItemsAreScanned(items: seq<Node>, depth: int, keys: int, limits: Limits)
    ensures VisitItems(items, depth, keys, limits) == Scan(ItemsTrace(items, depth), keys, limits)
    decreases items, 0
  {
    if items != [] {
      hide Scan, Trace;
      VisitIsScan(items[0], depth, keys, limits);
      var first := Visit(items[0], depth, keys, limits);
      ScanJoin(Trace(items[0], depth), ItemsTrace(items[1..], depth), keys, limits);
      ItemsAreScanned(items[1..], depth, first.keys, limits);
    }
  }

  lemma {:induction false} FieldsAreScanned(fields: seq<Field>, depth: int, keys: int, limits: Limits)
    ensures VisitFields(fields, depth, keys, limits) == Scan(FieldsTrace(fields, depth), keys, limits)
    decreases fields, 0
  {
    if fields != [] {
      var key, child := fields[0].key, fields[0].child;
      assert child < fields[0];
      UnsafeIff(key);
      ErrorFirst([Name(key)], keys, limits);
      ScanOne(Name(key), keys, limits);
      hide Scan, Trace, HasDangerousMongoKey, Unsafe, ErrorAt;
      VisitIsScan(child, depth, keys + 1, limits);
      var first := Visit(child, depth, keys + 1, limits);
      ScanJoin([Name(key)] + Trace(child, depth), FieldsTrace(fields[1..], depth), keys, limits);
      ScanJoin([Name(key)], Trace(child, depth), keys, limits);
      FieldsAreScanned(fields[1..], depth, first.keys, limits);
    }
  }
}
