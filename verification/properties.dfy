/** What the inflation machinery promises its callers, proved about the
    model: field-by-field resolution, defaults for missing data, the
    all-default record for empty input, the output's typing, warning
    normalisation, and the keyword path as the inverse of the raw path. */
module Properties {
  import opened Results
  import opened RawValues
  import opened Models
  import IPAddresses

  /** Resolving a table field by field: it succeeds exactly when every
      field resolves, and each field then holds its own resolution. */
  lemma {:induction false} ResolveFieldsSpec(s: Shape, entries: seq<Entry>, values: map<string, Raw>)
    requires AllRanked(s, entries) && DistinctNames(entries)
    ensures var r := ResolveFields(s, entries, values);
            && (r.Success? <==> forall i :: 0 <= i < |entries| ==> Resolve(s, entries[i].1, entries[i].0, values).Success?)
            && (r.Success? ==> forall i :: 0 <= i < |entries| ==>
                  Resolve(s, entries[i].1, entries[i].0, values) == Success(r.value[entries[i].0]))
    decreases |entries|
  {
    if |entries| > 0 {
      var tail := entries[1..];
      assert forall i :: 0 <= i < |tail| ==> tail[i] == entries[i + 1];
      ResolveFieldsSpec(s, tail, values);
      var r := ResolveFields(s, entries, values);
      if r.Success? {
        forall i | 0 <= i < |entries|
          ensures Resolve(s, entries[i].1, entries[i].0, values) == Success(r.value[entries[i].0])
        {
          if i > 0 {
            assert entries[i].0 != entries[0].0;
          }
        }
      }
    }
  }

  /** On failure the exception is the one of the first field that fails:
      fields are resolved in declaration order and the first exception
      ends construction. */
  lemma {:induction false} FirstFailureWins(s: Shape, entries: seq<Entry>, values: map<string, Raw>)
    requires AllRanked(s, entries)
    requires ResolveFields(s, entries, values).Failure?
    ensures exists i :: && 0 <= i < |entries|
                        && Resolve(s, entries[i].1, entries[i].0, values) == Failure(ResolveFields(s, entries, values).error)
                        && forall j :: 0 <= j < i ==> Resolve(s, entries[j].1, entries[j].0, values).Success?
    decreases |entries|
  {
    var r := ResolveFields(s, entries, values);
    if Resolve(s, entries[0].1, entries[0].0, values).Success? {
      var tail := entries[1..];
      FirstFailureWins(s, tail, values);
      var k :| && 0 <= k < |tail|
               && Resolve(s, tail[k].1, tail[k].0, values) == Failure(r.error)
               && forall j :: 0 <= j < k ==> Resolve(s, tail[j].1, tail[j].0, values).Success?;
      assert forall j :: 1 <= j <= k ==> tail[j - 1] == entries[j];
      assert Resolve(s, entries[k + 1].1, entries[k + 1].0, values) == Failure(r.error);
    } else {
      assert Resolve(s, entries[0].1, entries[0].0, values) == Failure(r.error);
    }
  }

  /** Inflating a mapping is resolving the shape's table against it. */
  lemma InflateMapping(s: Shape, m: map<string, Raw>)
    ensures && AllRanked(s, Table(s))
            && var r := ResolveFields(s, Table(s), m);
               Inflate(s, Obj(m)) == if r.Success? then Success(Record(s, r.value)) else Failure(r.error)
  {
  }

  /** Two raw mappings that agree on the declared fields. */
  predicate AgreeOn(names: set<string>, m1: map<string, Raw>, m2: map<string, Raw>) {
    forall n :: n in names ==> (n in m1 <==> n in m2) && (n in m1 ==> m1[n] == m2[n])
  }

  lemma {:induction false} ResolveFieldsReadsOnlyDeclared(s: Shape, entries: seq<Entry>, m1: map<string, Raw>, m2: map<string, Raw>)
    requires AllRanked(s, entries)
    requires AgreeOn(NamesOf(entries), m1, m2)
    ensures ResolveFields(s, entries, m1) == ResolveFields(s, entries, m2)
    decreases |entries|
  {
    if |entries| > 0 {
      NamesOfCons(entries);
      var n := entries[0].0;
      assert Get(m1, n) == Get(m2, n) && GetOr(m1, n, Null) == GetOr(m2, n, Null);
      assert Resolve(s, entries[0].1, n, m1) == Resolve(s, entries[0].1, n, m2);
      ResolveFieldsReadsOnlyDeclared(s, entries[1..], m1, m2);
    }
  }

  /** Keys of the raw mapping that are not declared fields are ignored:
      mappings that agree on the declared fields inflate identically. */
  lemma UndeclaredKeysIgnored(s: Shape, m1: map<string, Raw>, m2: map<string, Raw>)
    requires AgreeOn(Names(s), m1, m2)
    ensures Inflate(s, Obj(m1)) == Inflate(s, Obj(m2))
  {
    ResolveFieldsReadsOnlyDeclared(s, Table(s), m1, m2);
    InflateMapping(s, m1);
    InflateMapping(s, m2);
  }

  /** None, and every other falsy argument, behaves exactly like `{}`. */
  lemma FalsyIsEmptyMapping(s: Shape, x: Raw)
    requires !Truthy(x)
    ensures Inflate(s, x) == Inflate(s, Obj(map[]))
  {
    assert AsMapping(x) == Success(map[]);
    InflateMapping(s, map[]);
  }

  /** Field-by-field values of a resolved table, for any entry list. */
  predicate FieldValuesFrom(entries: seq<Entry>, m: map<string, Raw>, fields: map<string, Val>) {
    forall i :: 0 <= i < |entries| ==>
      var n := entries[i].0;
      var d := entries[i].1;
      && n in fields
      && (d.Const? && n in m ==> fields[n] == Plain(m[n]))
      && (d.Const? && n !in m ==> fields[n] == Plain(d.value))
      && (d.Call? && n in m ==> Apply(d.ctor, m[n]) == Success(fields[n]))
      && (d.Call? && n !in m ==> Apply(d.ctor, Null) == Success(fields[n]))
  }

  /** Every callable default of the entry list succeeds on its raw value. */
  predicate CallsSucceed(entries: seq<Entry>, m: map<string, Raw>) {
    forall i :: 0 <= i < |entries| && entries[i].1.Call? ==> Apply(entries[i].1.ctor, Get(m, entries[i].0)).Success?
  }

  lemma ResolvedFieldValues(s: Shape, entries: seq<Entry>, m: map<string, Raw>)
    requires AllRanked(s, entries) && DistinctNames(entries)
    ensures var r := ResolveFields(s, entries, m);
            && (r.Success? <==> CallsSucceed(entries, m))
            && (r.Success? ==> FieldValuesFrom(entries, m, r.value))
  {
    ResolveFieldsSpec(s, entries, m);
    assert forall i :: 0 <= i < |entries| && entries[i].1.Call? ==>
      Resolve(s, entries[i].1, entries[i].0, m) == Apply(entries[i].1.ctor, Get(m, entries[i].0));
  }

  /** The raw-mapping path field by field: a constant-default field holds
      the raw value when its key is present and the constant otherwise; a
      callable-default field holds the callable applied to the raw value,
      which is None when the key is absent, so the callable always runs.
      Construction succeeds exactly when every callable succeeds. */
  lemma InflateFieldValues(s: Shape, m: map<string, Raw>)
    ensures var r := Inflate(s, Obj(m));
            && (r.Success? <==> CallsSucceed(Table(s), m))
            && (r.Success? ==> FieldValuesFrom(Table(s), m, r.value.fields))
  {
    TableDistinct(s);
    ResolvedFieldValues(s, Table(s), m);
    InflateMapping(s, m);
  }

  /** The record every field of which holds its declared default: the
      constant for constant defaults, an all-default record for nested
      records, `()` for the tuple normalisers, and the IP address object
      built from None. */
  function Blank(s: Shape): (r: Record)
    decreases Rank(s), 2
  {
    TableDistinct(s);
    Record(s, BlankFields(s, Table(s)))
  }

  function BlankFields(s: Shape, entries: seq<Entry>): map<string, Val>
    requires AllRanked(s, entries) && DistinctNames(entries)
    decreases Rank(s), 1
  {
    map i | 0 <= i < |entries| :: entries[i].0 := BlankValue(s, entries[i].1)
  }

  function BlankValue(s: Shape, d: Default): Val
    requires Ranked(s, d)
    decreases Rank(s), 0
  {
    match d
    case Const(c) => Plain(c)
    case Call(Nested(t)) => Rec(Blank(t))
    case Call(MakeIPAddress) => Ip(IPAddresses.Blank())
    case Call(CreateWarnings) => Tuple([])
    case Call(InputPath) => Tuple([])
  }

  lemma ResolveOfNothing(s: Shape, d: Default, name: string)
    requires Ranked(s, d)
    requires forall u :: Rank(u) < Rank(s) ==> Inflate(u, Null) == Success(Blank(u))
    ensures Resolve(s, d, name, map[]) == Success(BlankValue(s, d))
  {
    match d
    case Const(_) =>
    case Call(c) =>
      match c
      case Nested(u) =>
        assert Apply(c, Null) == Success(Rec(Blank(u)));
      case MakeIPAddress => IPAddresses.InitOfNothing();
      case CreateWarnings =>
      case InputPath =>
  }

  /** A resolved table whose every field resolved to its blank value is
      the blank table. */
  lemma BlankFieldsFromValues(s: Shape, entries: seq<Entry>, fields: map<string, Val>)
    requires AllRanked(s, entries) && DistinctNames(entries)
    requires fields.Keys == NamesOf(entries)
    requires forall i :: 0 <= i < |entries| ==> fields[entries[i].0] == BlankValue(s, entries[i].1)
    ensures fields == BlankFields(s, entries)
  {
    var blank := BlankFields(s, entries);
    forall n | n in fields
      ensures n in blank && fields[n] == blank[n]
    {
      var i :| 0 <= i < |entries| && entries[i].0 == n;
    }
  }

  lemma ResolveFieldsOfNothing(s: Shape, entries: seq<Entry>)
    requires AllRanked(s, entries) && DistinctNames(entries)
    requires forall u :: Rank(u) < Rank(s) ==> Inflate(u, Null) == Success(Blank(u))
    ensures ResolveFields(s, entries, map[]) == Success(BlankFields(s, entries))
  {
    ResolveFieldsSpec(s, entries, map[]);
    forall i | 0 <= i < |entries|
      ensures Resolve(s, entries[i].1, entries[i].0, map[]) == Success(BlankValue(s, entries[i].1))
    {
      ResolveOfNothing(s, entries[i].1, entries[i].0);
    }
    BlankFieldsFromValues(s, entries, ResolveFields(s, entries, map[]).value);
  }

  /** Inflating empty or absent data yields the all-default record, all
      the way down: nested records are present and themselves default. */
  lemma {:induction false} EmptyInputInflatesToBlank(s: Shape, x: Raw)
    requires !Truthy(x)
    ensures Inflate(s, x) == Success(Blank(s))
    decreases Rank(s)
  {
    forall u | Rank(u) < Rank(s)
      ensures Inflate(u, Null) == Success(Blank(u))
    {
      EmptyInputInflatesToBlank(u, Null);
    }
    TableDistinct(s);
    ResolveFieldsOfNothing(s, Table(s));
  }

  lemma BlankFieldsAt(s: Shape, entries: seq<Entry>, i: nat)
    requires AllRanked(s, entries) && DistinctNames(entries) && i < |entries|
    ensures entries[i].0 in BlankFields(s, entries)
    ensures BlankFields(s, entries)[entries[i].0] == BlankValue(s, entries[i].1)
  {
  }

  lemma BlankFieldsOfScalars(s: Shape, entries: seq<Entry>)
    requires AllRanked(s, entries) && DistinctNames(entries)
    requires forall i :: 0 <= i < |entries| ==> entries[i].1 == Const(Null)
    ensures BlankFields(s, entries).Keys == NamesOf(entries)
    ensures forall n :: n in BlankFields(s, entries) ==> BlankFields(s, entries)[n] == Plain(Null)
  {
    var f := BlankFields(s, entries);
    forall n | n in f
      ensures f[n] == Plain(Null)
    {
      var i :| 0 <= i < |entries| && entries[i].0 == n;
      BlankFieldsAt(s, entries, i);
    }
  }

  /** A blank record of a shape whose defaults are all constant None
      holds None in every field. */
  lemma BlankOfScalars(s: Shape)
    requires forall i :: 0 <= i < |Table(s)| ==> Table(s)[i].1 == Const(Null)
    ensures Blank(s).fields.Keys == Names(s)
    ensures forall n :: n in Blank(s).fields ==> Blank(s).fields[n] == Plain(Null)
  {
    TableDistinct(s);
    assert Blank(s).fields == BlankFields(s, Table(s));
    BlankFieldsOfScalars(s, Table(s));
  }

  /** The blank issuer has its four fields, all None. */
  lemma BlankIssuer()
    ensures Blank(Issuer).fields.Keys == Names(Issuer)
    ensures |Blank(Issuer).fields| == 4
    ensures forall n :: n in Blank(Issuer).fields ==> Blank(Issuer).fields[n] == Plain(Null)
  {
    var t := Table(Issuer);
    assert forall i :: 0 <= i < |t| ==> t[i].1 == Const(Null);
    BlankOfScalars(Issuer);
    TableDistinct(Issuer);
    DistinctNamesCount(t);
  }

  /** `CreditCard({})`: the issuer is present as the blank issuer record
      (whose four fields are None, see BlankIssuer), not None. */
  lemma EmptyCreditCard(x: Raw)
    requires !Truthy(x)
    ensures var r := Inflate(CreditCard, x);
            && r.Success?
            && "issuer" in r.value.fields
            && r.value.fields["issuer"] == Rec(Blank(Issuer))
  {
    EmptyInputInflatesToBlank(CreditCard, x);
    TableDistinct(CreditCard);
    var t := Table(CreditCard);
    assert t[0] == ("issuer", Call(Nested(Issuer)));
    BlankFieldsAt(CreditCard, t, 0);
  }

  /** A resolved value has the form its default promises. */
  predicate Fits(s: Shape, d: Default, v: Val)
    requires Ranked(s, d)
    decreases Rank(s), 0
  {
    match d
    case Const(_) => v.Plain?
    case Call(Nested(t)) => v.Rec? && WellTyped(t, v.rec)
    case Call(CreateWarnings) =>
      v.Tuple? && forall i :: 0 <= i < |v.items| ==> v.items[i].Rec? && WellTyped(Warning, v.items[i].rec)
    case Call(InputPath) => v.Tuple? && forall i :: 0 <= i < |v.items| ==> v.items[i].Plain?
    case Call(MakeIPAddress) => v.Ip? && IPAddresses.Finalized(v.obj)
  }

  predicate AllFit(s: Shape, entries: seq<Entry>, fields: map<string, Val>)
    requires AllRanked(s, entries)
    decreases Rank(s), 1
  {
    forall i :: 0 <= i < |entries| ==> entries[i].0 in fields && Fits(s, entries[i].1, fields[entries[i].0])
  }

  /** The output contract of a record tree: every declared field present;
      nested sections are records, `warnings` a tuple of warnings, `input`
      a tuple, the IP address a sealed object, never None. */
  predicate WellTyped(s: Shape, r: Record)
    decreases Rank(s), 2
  {
    r.shape == s && r.fields.Keys == Names(s) && AllFit(s, Table(s), r.fields)
  }

  lemma ResolvedFieldsFit(s: Shape, entries: seq<Entry>, values: map<string, Raw>)
    requires AllRanked(s, entries) && DistinctNames(entries)
    requires forall i :: 0 <= i < |entries| && entries[i].1.Call? ==>
               var y := Get(values, entries[i].0);
               Apply(entries[i].1.ctor, y).Success? ==> Fits(s, entries[i].1, Apply(entries[i].1.ctor, y).value)
    requires ResolveFields(s, entries, values).Success?
    ensures AllFit(s, entries, ResolveFields(s, entries, values).value)
  {
    ResolveFieldsSpec(s, entries, values);
    var fields := ResolveFields(s, entries, values).value;
    forall i | 0 <= i < |entries|
      ensures entries[i].0 in fields && Fits(s, entries[i].1, fields[entries[i].0])
    {
      assert Resolve(s, entries[i].1, entries[i].0, values) == Success(fields[entries[i].0]);
    }
  }

  lemma {:induction false} InflateWellTyped(s: Shape, x: Raw)
    ensures Inflate(s, x).Success? ==> WellTyped(s, Inflate(s, x).value)
    decreases Rank(s), 2
  {
    if Inflate(s, x).Success? {
      var t := Table(s);
      var values := AsMapping(x).value;
      TableDistinct(s);
      forall i | 0 <= i < |t| && t[i].1.Call?
        ensures var y := Get(values, t[i].0);
                Apply(t[i].1.ctor, y).Success? ==> Fits(s, t[i].1, Apply(t[i].1.ctor, y).value)
      {
        ApplyFits(s, t[i].1.ctor, Get(values, t[i].0));
      }
      ResolvedFieldsFit(s, t, values);
    }
  }

  lemma {:induction false} ApplyFits(s: Shape, c: Ctor, x: Raw)
    requires CtorRank(c) < Rank(s)
    ensures Apply(c, x).Success? ==> Fits(s, Call(c), Apply(c, x).value)
    decreases Rank(s), 1
  {
    match c
    case Nested(t) =>
      InflateWellTyped(t, x);
    case CreateWarnings =>
      WarningsFit(s, x);
    case InputPath =>
    case MakeIPAddress =>
  }

  lemma {:induction false} WarningsFit(s: Shape, x: Raw)
    requires CtorRank(CreateWarnings) < Rank(s)
    ensures Apply(CreateWarnings, x).Success? ==> Fits(s, Call(CreateWarnings), Apply(CreateWarnings, x).value)
    decreases Rank(s), 0
  {
    if Apply(CreateWarnings, x).Success? && Truthy(x) {
      var xs := Iterate(x).value;
      var ws := InflateAll(Warning, xs).value;
      forall i | 0 <= i < |xs|
        ensures WellTyped(Warning, ws[i])
      {
        InflateWellTyped(Warning, xs[i]);
      }
      assert Apply(CreateWarnings, x).value.items == seq(|ws|, i requires 0 <= i < |ws| => Rec(ws[i]));
    }
  }

  /** A well-typed record's field at a table position fits its default. */
  lemma FitsAt(s: Shape, r: Record, i: nat)
    requires WellTyped(s, r) && i < |Table(s)|
    ensures && Ranked(s, Table(s)[i].1)
            && Table(s)[i].0 in r.fields
            && Fits(s, Table(s)[i].1, r.fields[Table(s)[i].0])
  {
  }

  /** The response sections of an Insights result are always present as
      records, even when the raw response omits them. */
  lemma InsightsSectionsPresent(x: Raw)
    ensures Inflate(Insights, x).Success? ==>
            var f := Inflate(Insights, x).value.fields;
            && "credit_card" in f && f["credit_card"].Rec? && f["credit_card"].rec.shape == CreditCard
            && "issuer" in f["credit_card"].rec.fields
            && f["credit_card"].rec.fields["issuer"].Rec?
            && f["credit_card"].rec.fields["issuer"].rec.shape == Issuer
            && "billing_address" in f && f["billing_address"].Rec? && f["billing_address"].rec.shape == BillingAddress
            && "shipping_address" in f && f["shipping_address"].Rec? && f["shipping_address"].rec.shape == ShippingAddress
            && "ip_address" in f && f["ip_address"].Ip? && IPAddresses.Finalized(f["ip_address"].obj)
            && "warnings" in f && f["warnings"].Tuple?
  {
    if Inflate(Insights, x).Success? {
      InsightsSectionsOf(x);
    }
  }

  lemma InsightsSectionsOf(x: Raw)
    requires Inflate(Insights, x).Success?
    ensures var f := Inflate(Insights, x).value.fields;
            && "credit_card" in f && f["credit_card"].Rec? && f["credit_card"].rec.shape == CreditCard
            && "issuer" in f["credit_card"].rec.fields
            && f["credit_card"].rec.fields["issuer"].Rec?
            && f["credit_card"].rec.fields["issuer"].rec.shape == Issuer
            && "billing_address" in f && f["billing_address"].Rec? && f["billing_address"].rec.shape == BillingAddress
            && "shipping_address" in f && f["shipping_address"].Rec? && f["shipping_address"].rec.shape == ShippingAddress
            && "ip_address" in f && f["ip_address"].Ip? && IPAddresses.Finalized(f["ip_address"].obj)
            && "warnings" in f && f["warnings"].Tuple?
  {
    var r := Inflate(Insights, x).value;
    InflateWellTyped(Insights, x);
    var t := Table(Insights);
    FitsAt(Insights, r, 2);
    FitsAt(Insights, r, 4);
    FitsAt(Insights, r, 5);
    FitsAt(Insights, r, 6);
    FitsAt(Insights, r, 7);
    var card := r.fields["credit_card"].rec;
    FitsAt(CreditCard, card, 0);
  }

  /** Warning normalisation: absent or empty gives `()`; a list gives a
      tuple of the same length, in the same order, of `Warning(raw[i])`;
      a number or boolean cannot be iterated. */
  lemma WarningsNormalised(x: Raw)
    ensures !Truthy(x) ==> Apply(CreateWarnings, x) == Success(Tuple([]))
    ensures x.Arr? ==>
              var r := Apply(CreateWarnings, x);
              && (r.Success? <==> forall i :: 0 <= i < |x.items| ==> Inflate(Warning, x.items[i]).Success?)
              && (r.Success? ==> && |r.value.items| == |x.items|
                                 && forall i :: 0 <= i < |x.items| ==>
                                      Inflate(Warning, x.items[i]) == Success(r.value.items[i].rec)
                                      && r.value.items[i].Rec?)
    ensures Truthy(x) && (x.Num? || x.Bool?) ==> Apply(CreateWarnings, x) == Failure(NotIterable)
  {
  }

  /** `Warning.input`: absent or empty gives `()`, a list gives its
      elements in order, a string its characters. */
  lemma InputNormalised(x: Raw)
    ensures !Truthy(x) ==> Apply(InputPath, x) == Success(Tuple([]))
    ensures x.Arr? ==> var r := Apply(InputPath, x);
                       && r.Success? && |r.value.items| == |x.items|
                       && forall i :: 0 <= i < |x.items| ==> r.value.items[i] == Plain(x.items[i])
    ensures x.Str? ==> var r := Apply(InputPath, x);
                       && r.Success? && |r.value.items| == |x.s|
                       && forall i :: 0 <= i < |x.s| ==> r.value.items[i] == Plain(Str([x.s[i]]))
    ensures Truthy(x) && (x.Num? || x.Bool?) ==> Apply(InputPath, x) == Failure(NotIterable)
  {
  }

  /** The keyword path rebuilds any well-formed record from its own
      fields: it is the inverse of taking a record apart. */
  lemma KeywordsRebuildRecord(r: Record)
    requires WellFormed(r)
    ensures FromKeywords(r.shape, r.fields) == Success(r)
  {
    var names := Names(r.shape);
    var m := map n | n in names :: if n in r.fields then r.fields[n] else Plain(Null);
    assert r.fields.Keys <= names;
    assert m == r.fields;
  }

  /** In particular every inflated record can be rebuilt by keywords. */
  lemma KeywordsRebuildInflated(s: Shape, x: Raw)
    ensures Inflate(s, x).Success? ==> FromKeywords(s, Inflate(s, x).value.fields) == Inflate(s, x)
    ensures Inflate(s, x).Success? ==> Construct(s, [], Inflate(s, x).value.fields) == Inflate(s, x)
  {
    if Inflate(s, x).Success? {
      KeywordsRebuildRecord(Inflate(s, x).value);
    }
  }

  /** Calling a shape with no arguments at all takes the keyword path:
      every field is None and no callable default runs, unlike inflating
      an empty mapping. */
  lemma NoArgumentsGivesNones(s: Shape)
    ensures var r := Construct(s, [], map[]);
            && r.Success? && WellFormed(r.value)
            && forall n :: n in r.value.fields ==> r.value.fields[n] == Plain(Null)
  {
  }

  /** The tuple view loses nothing: two well-formed records of one shape
      are the same record exactly when their positional values agree. */
  lemma PositionalDeterminesRecord(a: Record, b: Record)
    requires WellFormed(a) && WellFormed(b) && a.shape == b.shape
    ensures Positional(a) == Positional(b) <==> a == b
  {
    if Positional(a) == Positional(b) {
      SamePositionalSameFields(a, b);
    }
  }

  lemma SamePositionalSameFields(a: Record, b: Record)
    requires WellFormed(a) && WellFormed(b) && a.shape == b.shape
    requires Positional(a) == Positional(b)
    ensures a.fields == b.fields
  {
    var order := FieldOrder(a.shape);
    forall i | 0 <= i < |order|
      ensures order[i] in a.fields && order[i] in b.fields && a.fields[order[i]] == b.fields[order[i]]
    {
      PositionalAt(a, i);
      PositionalAt(b, i);
    }
    SameAtKeysSameMap(order, a.fields, b.fields);
  }

  /** Two maps with the same keys, all listed, that agree at every listed key. */
  lemma SameAtKeysSameMap(order: seq<string>, f: map<string, Val>, g: map<string, Val>)
    requires f.Keys == g.Keys
    requires forall n :: n in f ==> n in order
    requires forall i :: 0 <= i < |order| ==> order[i] in f && order[i] in g && f[order[i]] == g[order[i]]
    ensures f == g
  {
    forall n | n in f
      ensures f[n] == g[n]
    {
      var i :| 0 <= i < |order| && order[i] == n;
    }
  }

  /** Slot i of the tuple view is the field named by the i-th sorted name. */
  lemma PositionalAt(r: Record, i: nat)
    requires WellFormed(r) && i < |FieldOrder(r.shape)|
    ensures FieldOrder(r.shape)[i] in r.fields
    ensures Positional(r)[i] == r.fields[FieldOrder(r.shape)[i]]
  {
  }

  /** A warning as the service sends it (a code, a message and a path)
    inflates to the record holding the code, the message, and the path
    as a tuple in the same order. */
  lemma WarningFromService(code: string, message: string, path: seq<Raw>)
    ensures Inflate(Warning, Obj(map["code" := Str(code), "warning" := Str(message), "input" := Arr(path)]))
         == Success(Record(Warning, map["code" := Plain(Str(code)),
                                        "warning" := Plain(Str(message)),
                                        "input" := Tuple(seq(|path|, i requires 0 <= i < |path| => Plain(path[i])))]))
  {
    var m := map["code" := Str(code), "warning" := Str(message), "input" := Arr(path)];
    var input := Tuple(seq(|path|, i requires 0 <= i < |path| => Plain(path[i])));
    WarningFieldsFromService(code, message, path);
    var r := Inflate(Warning, Obj(m)).value;
    assert Names(Warning) == {"code", "warning", "input"};
    var want := map["code" := Plain(Str(code)), "warning" := Plain(Str(message)), "input" := input];
    assert r.fields.Keys == want.Keys;
    assert r.fields == want;
  }

  lemma WarningFieldsFromService(code: string, message: string, path: seq<Raw>)
    ensures var r := Inflate(Warning, Obj(map["code" := Str(code), "warning" := Str(message), "input" := Arr(path)]));
            && r.Success?
            && r.value.shape == Warning
            && r.value.fields["code"] == Plain(Str(code))
            && r.value.fields["warning"] == Plain(Str(message))
            && r.value.fields["input"] == Tuple(seq(|path|, i requires 0 <= i < |path| => Plain(path[i])))
  {
    var m := map["code" := Str(code), "warning" := Str(message), "input" := Arr(path)];
    var t := Table(Warning);
    assert t == [("code", Const(Null)), ("warning", Const(Null)), ("input", Call(InputPath))];
    InputNormalised(Arr(path));
    var input := Tuple(seq(|path|, i requires 0 <= i < |path| => Plain(path[i])));
    var applied := Apply(InputPath, Arr(path)).value;
    assert applied.items == input.items;
    assert CallsSucceed(t, m);
    InflateFieldValues(Warning, m);
    var fields := Inflate(Warning, Obj(m)).value.fields;
    assert FieldValuesFrom(t, m, fields);
    assert fields[t[2].0] == input;
  }

  /** An IP address section with a country and a risk, and the reserved
      locales key, which is consumed and passed to the country record. */
  lemma IPAddressExample()
    ensures var x := Obj(map["country" := Obj(map["iso_code" := Str("US")]),
                             "risk" := Num(12.5),
                             "_locales" := Arr([Str("en")])]);
            var r := IPAddresses.Init(x);
            && r.Success?
            && r.value.attrs["risk"] == IPAddresses.Value(Num(12.5))
            && r.value.attrs["country"] == IPAddresses.Country(Arr([Str("en")]), map["iso_code" := Str("US")])
            && "is_high_risk" !in r.value.attrs["country"].kwargs
            && "_locales" !in r.value.base.response
            && "_locales" !in r.value.attrs
            && IPAddresses.Finalized(r.value)
  {
  }
}
