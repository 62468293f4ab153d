/** The record shapes of the minFraud response and the generic machinery
    that inflates raw response data into trees of immutable records:
    `_inflate_to_namedtuple` with its replacement constructor, the
    warning normalisers, and the per-shape field tables. */
module Models {
  import opened Results
  import opened RawValues
  import Ordering
  import IPAddresses

  /** The record shapes built by the inflation decorator. */
  datatype Shape = Issuer | CreditCard | BillingAddress | ShippingAddress | Warning | Insights | Score

  /** The callable defaults a field table can name. */
  datatype Ctor =
    | Nested(shape: Shape)   // the record class itself, called on the raw sub-value
    | CreateWarnings         // `_create_warnings`
    | InputPath              // `lambda x: tuple(x) if x else ()`
    | MakeIPAddress          // the `IPAddress` class

  /** A field default: a constant, or a callable applied to the raw sub-value. */
  datatype Default = Const(value: Raw) | Call(ctor: Ctor)

  type Entry = (string, Default)

  /** The `_fields` dict of each shape, in the order it is written. Every
      constant default is None, and every callable default builds
      something of smaller nesting depth, so a record tree is finite and
      acyclic (its names are distinct: TableDistinct). */
  function Table(s: Shape): (r: seq<Entry>)
    ensures forall i :: 0 <= i < |r| && r[i].1.Const? ==> r[i].1.value == Null
    ensures AllRanked(s, r)
  {
    match s
    case Issuer =>
      [("name", Const(Null)),
       ("matches_provided_name", Const(Null)),
       ("phone_number", Const(Null)),
       ("matches_provided_phone_number", Const(Null))]
    case CreditCard =>
      [("issuer", Call(Nested(Issuer))),
       ("country", Const(Null)),
       ("is_issued_in_billing_address_country", Const(Null)),
       ("is_prepaid", Const(Null))]
    case BillingAddress =>
      [("is_postal_in_city", Const(Null)),
       ("latitude", Const(Null)),
       ("longitude", Const(Null)),
       ("distance_to_ip_location", Const(Null)),
       ("is_in_ip_country", Const(Null))]
    case ShippingAddress =>
      [("is_postal_in_city", Const(Null)),
       ("latitude", Const(Null)),
       ("longitude", Const(Null)),
       ("distance_to_ip_location", Const(Null)),
       ("is_in_ip_country", Const(Null)),
       ("is_high_risk", Const(Null)),
       ("distance_to_billing_address", Const(Null))]
    case Warning =>
      [("code", Const(Null)),
       ("warning", Const(Null)),
       ("input", Call(InputPath))]
    case Insights =>
      [("id", Const(Null)),
       ("risk_score", Const(Null)),
       ("warnings", Call(CreateWarnings)),
       ("credits_remaining", Const(Null)),
       ("ip_address", Call(MakeIPAddress)),
       ("credit_card", Call(Nested(CreditCard))),
       ("shipping_address", Call(Nested(ShippingAddress))),
       ("billing_address", Call(Nested(BillingAddress)))]
    case Score =>
      [("id", Const(Null)),
       ("risk_score", Const(Null)),
       ("warnings", Call(CreateWarnings)),
       ("credits_remaining", Const(Null))]
  }

  /** Nesting depth of a shape: a table only calls constructors of
      smaller depth, which is why inflation terminates. */
  function Rank(s: Shape): nat {
    match s
    case Issuer => 1
    case BillingAddress => 1
    case ShippingAddress => 1
    case Warning => 1
    case CreditCard => 2
    case Insights => 3
    case Score => 3
  }

  function CtorRank(c: Ctor): nat {
    match c
    case Nested(t) => Rank(t)
    case CreateWarnings => Rank(Warning)
    case InputPath => 0
    case MakeIPAddress => 0
  }

  predicate Ranked(s: Shape, d: Default) {
    d.Call? ==> CtorRank(d.ctor) < Rank(s)
  }

  predicate AllRanked(s: Shape, entries: seq<Entry>) {
    forall i :: 0 <= i < |entries| ==> Ranked(s, entries[i].1)
  }

  /** A dict has no repeated keys. */
  predicate DistinctNames(entries: seq<Entry>) {
    forall i, j :: 0 <= i < j < |entries| ==> entries[i].0 != entries[j].0
  }

  /** A `_fields` dict literal names each field once. */
  lemma TableDistinct(s: Shape)
    ensures DistinctNames(Table(s))
  {
  }

  function NamesOf(entries: seq<Entry>): set<string> {
    set i | 0 <= i < |entries| :: entries[i].0
  }

  /** The declared field names of a shape. */
  function Names(s: Shape): set<string> {
    NamesOf(Table(s))
  }

  lemma {:induction false} NamesOfCons(entries: seq<Entry>)
    requires |entries| > 0
    ensures NamesOf(entries) == {entries[0].0} + NamesOf(entries[1..])
  {
    forall n | n in NamesOf(entries)
      ensures n in {entries[0].0} + NamesOf(entries[1..])
    {
      var i :| 0 <= i < |entries| && entries[i].0 == n;
      if i > 0 {
        assert entries[1..][i - 1].0 == n;
      }
    }
    forall n | n in NamesOf(entries[1..])
      ensures n in NamesOf(entries)
    {
      var i :| 0 <= i < |entries[1..]| && entries[1..][i].0 == n;
      assert entries[i + 1].0 == n;
    }
  }

  lemma {:induction false} DistinctNamesCount(entries: seq<Entry>)
    requires DistinctNames(entries)
    ensures |NamesOf(entries)| == |entries|
    decreases |entries|
  {
    if |entries| > 0 {
      NamesOfCons(entries);
      DistinctNamesCount(entries[1..]);
      assert entries[0].0 !in NamesOf(entries[1..]) by {
        forall i | 0 <= i < |entries[1..]|
          ensures entries[1..][i].0 != entries[0].0
        {
          assert entries[1..][i] == entries[i + 1];
        }
      }
    }
  }

  /** The positional layout of the named tuple: `sorted(_fields.keys())`,
      one slot per declared field. */
  function FieldOrder(s: Shape): (r: seq<string>)
    ensures Ordering.StrictlySorted(r)
    ensures forall n :: n in r <==> n in Names(s)
    ensures |r| == |Table(s)|
  {
    TableDistinct(s);
    DistinctNamesCount(Table(s));
    Ordering.SortedKeys(Names(s))
  }

  /** A resolved field value. */
  datatype Val =
    | Plain(raw: Raw)                      // a raw value, or the None default
    | Rec(rec: Record)                     // a nested record
    | Tuple(items: seq<Val>)               // a tuple (warnings, input path)
    | Ip(obj: IPAddresses.IPObject)        // a sealed IP address object

  /** An immutable record: its shape and a value for each field. */
  datatype Record = Record(shape: Shape, fields: map<string, Val>)

  /** The record carries exactly the declared fields of its shape. */
  predicate WellFormed(r: Record) {
    r.fields.Keys == Names(r.shape)
  }

  /** Exceptions that malformed raw data, rather than a misuse of the
      constructor, can raise. */
  predicate DataError(e: Error) {
    e == NoGetAttribute || e == NotIterable || e == NotKeywordMapping
  }

  /** `values = args[0] if args[0] else {}`, then `values.get(...)`: a
      falsy argument is an empty dict, a truthy non-dict has no `.get`. */
  function AsMapping(x: Raw): (r: Result<map<string, Raw>>)
    ensures r.Success? <==> !Truthy(x) || x.Obj?
    ensures r.Failure? ==> r.error == NoGetAttribute
    ensures x.Obj? ==> r == Success(x.fields)
    ensures !Truthy(x) ==> r == Success(map[])
  {
    if !Truthy(x) then Success(map[])
    else if x.Obj? then Success(x.fields)
    else Failure(NoGetAttribute)
  }

  /** The replacement constructor called with one positional argument:
      every declared field is resolved from the raw mapping. */
  function Inflate(s: Shape, x: Raw): (r: Result<Record>)
    ensures r.Success? ==> r.value.shape == s && WellFormed(r.value)
    ensures r.Failure? ==> DataError(r.error)
    decreases Rank(s), 1, 0
  {
    var values :- AsMapping(x);
    var fields :- ResolveFields(s, Table(s), values);
    Success(Record(s, fields))
  }

  /** The loop over `fields.items()`, in declaration order: the first
      exception raised ends construction. */
  function ResolveFields(s: Shape, entries: seq<Entry>, values: map<string, Raw>): (r: Result<map<string, Val>>)
    requires AllRanked(s, entries)
    ensures r.Success? ==> r.value.Keys == NamesOf(entries)
    ensures r.Failure? ==> DataError(r.error)
    decreases Rank(s), 0, |entries|
  {
    if |entries| == 0 then Success(map[])
    else
      var v :- Resolve(s, entries[0].1, entries[0].0, values);
      var rest :- ResolveFields(s, entries[1..], values);
      NamesOfCons(entries);
      Success(rest[entries[0].0 := v])
  }

  /** One field: `default(values.get(field))` for a callable default,
      `values.get(field, default)` for a constant one. */
  function Resolve(s: Shape, d: Default, name: string, values: map<string, Raw>): (r: Result<Val>)
    requires Ranked(s, d)
    ensures d.Const? ==> r == Success(Plain(GetOr(values, name, d.value)))
    ensures r.Failure? ==> DataError(r.error)
    decreases Rank(s), 0, 0
  {
    match d
    case Const(c) => Success(Plain(GetOr(values, name, c)))
    case Call(c) => Apply(c, Get(values, name))
  }

  /** Calling a callable default on a raw sub-value (None when absent). */
  function Apply(c: Ctor, x: Raw): (r: Result<Val>)
    ensures r.Failure? ==> DataError(r.error)
    ensures r.Success? && c.Nested? ==> r.value.Rec? && r.value.rec.shape == c.shape && WellFormed(r.value.rec)
    ensures r.Success? && (c.CreateWarnings? || c.InputPath?) ==> r.value.Tuple?
    ensures r.Success? && c.MakeIPAddress? ==> r.value.Ip? && IPAddresses.Finalized(r.value.obj)
    decreases CtorRank(c), 3, 0
  {
    match c
    case Nested(t) =>
      var rec :- Inflate(t, x);
      Success(Rec(rec))
    case CreateWarnings =>
      if !Truthy(x) then Success(Tuple([]))
      else
        var xs :- Iterate(x);
        var ws :- InflateAll(Warning, xs);
        Success(Tuple(seq(|ws|, i requires 0 <= i < |ws| => Rec(ws[i]))))
    case InputPath =>
      if !Truthy(x) then Success(Tuple([]))
      else
        var xs :- Iterate(x);
        Success(Tuple(seq(|xs|, i requires 0 <= i < |xs| => Plain(xs[i]))))
    case MakeIPAddress =>
      var o :- IPAddresses.Init(x);
      Success(Ip(o))
  }

  /** `[Warning(x) for x in warnings]` (for any record shape): the
      elements in order, or the first exception. */
  function InflateAll(s: Shape, xs: seq<Raw>): (r: Result<seq<Record>>)
    ensures r.Success? ==> |r.value| == |xs|
                           && forall i :: 0 <= i < |xs| ==> Inflate(s, xs[i]) == Success(r.value[i])
    ensures r.Success? <==> forall i :: 0 <= i < |xs| ==> Inflate(s, xs[i]).Success?
    ensures r.Failure? ==> DataError(r.error)
    decreases Rank(s), 2, |xs|
  {
    if |xs| == 0 then Success([])
    else
      var first :- Inflate(s, xs[0]);
      var rest :- InflateAll(s, xs[1..]);
      assert forall i :: 1 <= i < |xs| ==> xs[1..][i - 1] == xs[i];
      Success([first] + rest)
  }

  /** The replacement constructor called with keywords only: supplied
      values are stored as given, every other field is None (the named
      tuple's own defaults), and no callable default is invoked. */
  function FromKeywords(s: Shape, kwargs: map<string, Val>): (r: Result<Record>)
    ensures r.Failure? <==> exists k :: k in kwargs && k !in Names(s)
    ensures r.Failure? ==> r.error == UnexpectedKeyword
    ensures r.Success? ==> && r.value.shape == s && WellFormed(r.value)
                           && (forall n :: n in kwargs ==> r.value.fields[n] == kwargs[n])
                           && (forall n :: n in Names(s) && n !in kwargs ==> r.value.fields[n] == Plain(Null))
  {
    if kwargs.Keys <= Names(s) then
      Success(Record(s, map n | n in Names(s) :: if n in kwargs then kwargs[n] else Plain(Null)))
    else
      Failure(UnexpectedKeyword)
  }

  /** `Shape(*args, **kwargs)`: one positional raw mapping, or keywords,
      never both and never two positionals. */
  function Construct(s: Shape, args: seq<Raw>, kwargs: map<string, Val>): (r: Result<Record>)
    ensures r == Failure(AmbiguousArguments) <==> (|args| > 0 && |kwargs| > 0) || |args| > 1
    ensures |args| == 1 && |kwargs| == 0 ==> r == Inflate(s, args[0])
    ensures |args| == 0 ==> r == FromKeywords(s, kwargs)
  {
    if (|args| > 0 && |kwargs| > 0) || |args| > 1 then Failure(AmbiguousArguments)
    else if |args| == 1 then Inflate(s, args[0])
    else FromKeywords(s, kwargs)
  }

  /** The tuple view of a record: field values in the named tuple's
      positional order. */
  function Positional(r: Record): (vs: seq<Val>)
    requires WellFormed(r)
    ensures |vs| == |Table(r.shape)|
    ensures forall n :: n in r.fields ==> r.fields[n] in vs
  {
    var order := FieldOrder(r.shape);
    var vs := seq(|order|, i requires 0 <= i < |order| => r.fields[order[i]]);
    assert forall n :: n in r.fields ==> r.fields[n] in vs by {
      forall n | n in r.fields
        ensures r.fields[n] in vs
      {
        var i :| 0 <= i < |order| && order[i] == n;
        assert vs[i] == r.fields[n];
      }
    }
    vs
  }
}
