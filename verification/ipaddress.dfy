/** The IP address record: built by the external geolocation base
    constructor, then given its own `country`, `location` and `risk`
    attributes, then sealed by setting `_finalized`; once sealed, every
    attribute assignment is refused. */
module IPAddresses {
  import opened Results
  import opened RawValues

  /** The reserved key that selects locales; it is not a field. */
  const LocalesKey: string := "_locales"
  /** The attribute whose truthiness seals the object. */
  const FinalizedKey: string := "_finalized"

  const CountryKey: string := "country"
  const LocationKey: string := "location"
  const RiskKey: string := "risk"

  /** A value stored in an attribute of the object. The country and
      location records belong to the external geolocation library; here
      they are the keyword arguments they were built from. */
  datatype Attr =
    | Value(raw: Raw)
    | Country(locales: Raw, kwargs: map<string, Raw>)
    | Location(kwargs: map<string, Raw>)
    | Flag(on: bool)

  /** What the external base constructor was given: the response with the
      reserved key removed, and the locales. Its own work is opaque. */
  datatype GeoBase = GeoBase(response: map<string, Raw>, locales: Raw)

  /** The object: the opaque base part, and the attributes assigned
      through the guarded `__setattr__` after it. */
  datatype IPObject = IPObject(base: GeoBase, attrs: map<string, Attr>)

  /** Python truthiness of an attribute value; records are objects and so
      always true. */
  predicate AttrTruthy(a: Attr) {
    match a
    case Value(x) => Truthy(x)
    case Flag(b) => b
    case _ => true
  }

  /** `hasattr(self, '_finalized') and self._finalized` */
  function Finalized(o: IPObject): (b: bool)
    ensures b ==> FinalizedKey in o.attrs
    ensures FinalizedKey in o.attrs && o.attrs[FinalizedKey] == Flag(true) ==> b
    ensures FinalizedKey in o.attrs && o.attrs[FinalizedKey] == Flag(false) ==> !b
    ensures FinalizedKey in o.attrs && o.attrs[FinalizedKey] == Value(Null) ==> !b
  {
    FinalizedKey in o.attrs && AttrTruthy(o.attrs[FinalizedKey])
  }

  /** The guarded `__setattr__`. */
  function SetAttr(o: IPObject, name: string, v: Attr): (r: Result<IPObject>)
    ensures r.Failure? <==> Finalized(o)
    ensures r.Failure? ==> r.error == CannotSetAttribute
    ensures r.Success? ==> && r.value.base == o.base
                           && r.value.attrs.Keys == o.attrs.Keys + {name}
                           && r.value.attrs[name] == v
                           && forall n :: n in o.attrs && n != name ==> r.value.attrs[n] == o.attrs[n]
  {
    if Finalized(o) then Failure(CannotSetAttribute)
    else Success(o.(attrs := o.attrs[name := v]))
  }

  /** `if ip_address is None: ip_address = {}`; anything else that is not
      a dict fails at the first `.get`. Only None is replaced, so an empty
      list or string fails here, unlike in the generic record path. */
  function AsResponse(x: Raw): (r: Result<map<string, Raw>>)
    ensures r.Success? <==> x.Null? || x.Obj?
    ensures r.Failure? ==> r.error == NoGetAttribute
    ensures x.Null? ==> r == Success(map[])
    ensures x.Obj? ==> r == Success(x.fields)
  {
    match x
    case Null => Success(map[])
    case Obj(m) => Success(m)
    case _ => Failure(NoGetAttribute)
  }

  /** `**m.get(key, {})`: the keyword arguments for a sub-record. */
  function KeywordArgs(m: map<string, Raw>, key: string): (r: Result<map<string, Raw>>)
    ensures r.Success? <==> key !in m || m[key].Obj?
    ensures r.Failure? ==> r.error == NotKeywordMapping
    ensures r.Success? && key in m ==> r.value == m[key].fields
    ensures key !in m ==> r == Success(map[])
  {
    if key !in m then Success(map[])
    else match m[key]
      case Obj(sub) => Success(sub)
      case _ => Failure(NotKeywordMapping)
  }

  /** The mapping the constructor works on: `{}` for None, the dict itself otherwise. */
  function Given(x: Raw): map<string, Raw> {
    if x.Obj? then x.fields else map[]
  }

  /** `IPAddress.__init__`, statement by statement. */
  function Init(x: Raw): (r: Result<IPObject>)
    ensures r.Success? <==> && (x.Null? || x.Obj?)
                            && (CountryKey !in Given(x) || Given(x)[CountryKey].Obj?)
                            && (LocationKey !in Given(x) || Given(x)[LocationKey].Obj?)
    ensures r.Failure? ==> r.error == NoGetAttribute || r.error == NotKeywordMapping
    ensures r.Success? ==>
              var o := r.value;
              && Finalized(o)
              && LocalesKey !in o.base.response
              && o.base.response == Given(x) - {LocalesKey}
              && o.base.locales == Get(Given(x), LocalesKey)
              && o.attrs.Keys == {CountryKey, LocationKey, RiskKey, FinalizedKey}
              && o.attrs[RiskKey] == Value(Get(Given(x), RiskKey))
              && o.attrs[CountryKey].Country?
              && o.attrs[CountryKey].locales == Get(Given(x), LocalesKey)
              && (CountryKey in Given(x) ==> o.attrs[CountryKey].kwargs == Given(x)[CountryKey].fields)
              && (CountryKey !in Given(x) ==> o.attrs[CountryKey].kwargs == map[])
              && (LocationKey in Given(x) ==> o.attrs[LocationKey] == Location(Given(x)[LocationKey].fields))
              && (LocationKey !in Given(x) ==> o.attrs[LocationKey] == Location(map[]))
  {
    var given :- AsResponse(x);
    var locales := Get(given, LocalesKey);
    var response := given - {LocalesKey};
    var o0 := IPObject(GeoBase(response, locales), map[]);
    var country :- KeywordArgs(response, CountryKey);
    // Before the seal every write goes through the guard and succeeds.
    var o1 := SetAttr(o0, CountryKey, Country(locales, country)).value;
    var location :- KeywordArgs(response, LocationKey);
    var o2 := SetAttr(o1, LocationKey, Location(location)).value;
    var o3 := SetAttr(o2, RiskKey, Value(GetOr(response, RiskKey, Null))).value;
    SetAttr(o3, FinalizedKey, Flag(true))
  }

  /** The object built from a missing (None) IP address section. */
  function Blank(): IPObject {
    IPObject(GeoBase(map[], Null),
             map[CountryKey := Country(Null, map[]), LocationKey := Location(map[]),
                 RiskKey := Value(Null), FinalizedKey := Flag(true)])
  }

  lemma InitOfNothing()
    ensures Init(Null) == Success(Blank())
  {
  }

  /** One attribute write or delete, as a caller would issue it. */
  datatype Op = Assign(name: string, value: Attr) | Delete(name: string)

  /** `del obj.name` as written: the class does not guard deletion, so
      this is the default `__delattr__`. */
  function DelAttrAsWritten(o: IPObject, name: string): (r: Result<IPObject>)
    ensures r.Success? <==> name in o.attrs
    ensures r.Failure? ==> r.error == NoSuchAttribute
    ensures r.Success? ==> r.value.base == o.base && r.value.attrs == o.attrs - {name}
  {
    if name in o.attrs then Success(o.(attrs := o.attrs - {name}))
    else Failure(NoSuchAttribute)
  }

  /** Deletion guarded like assignment, as the sealing evidently intends. */
  function DelAttr(o: IPObject, name: string): (r: Result<IPObject>)
    ensures Finalized(o) ==> r == Failure(CannotSetAttribute)
    ensures !Finalized(o) ==> (r.Success? <==> name in o.attrs)
    ensures !Finalized(o) && name !in o.attrs ==> r == Failure(NoSuchAttribute)
    ensures r.Success? ==> r.value.base == o.base && r.value.attrs == o.attrs - {name}
    ensures !Finalized(o) ==> r == DelAttrAsWritten(o, name)
  {
    if Finalized(o) then Failure(CannotSetAttribute)
    else DelAttrAsWritten(o, name)
  }

  /** Run caller operations in order as written; the first exception stops the run. */
  function RunAsWritten(o: IPObject, ops: seq<Op>): Result<IPObject>
    decreases |ops|
  {
    if |ops| == 0 then Success(o)
    else
      var o' :- match ops[0]
                case Assign(n, v) => SetAttr(o, n, v)
                case Delete(n) => DelAttrAsWritten(o, n);
      RunAsWritten(o', ops[1..])
  }

  /** Run caller operations in order with guarded deletion. */
  function Run(o: IPObject, ops: seq<Op>): Result<IPObject>
    decreases |ops|
  {
    if |ops| == 0 then Success(o)
    else
      var o' :- match ops[0]
                case Assign(n, v) => SetAttr(o, n, v)
                case Delete(n) => DelAttr(o, n);
      Run(o', ops[1..])
  }

  /** As written, deleting `_finalized` re-opens a sealed object: the
      next assignment goes through. */
  lemma DeletionReopensSealed(o: IPObject, name: string, v: Attr)
    requires Finalized(o)
    ensures var r := RunAsWritten(o, [Delete(FinalizedKey), Assign(name, v)]);
            r.Success? && name in r.value.attrs && r.value.attrs[name] == v
  {
    var ops := [Delete(FinalizedKey), Assign(name, v)];
    var o1 := DelAttrAsWritten(o, FinalizedKey).value;
    assert !Finalized(o1);
    var o2 := SetAttr(o1, name, v).value;
    assert ops[1..] == [Assign(name, v)];
    assert RunAsWritten(o1, [Assign(name, v)]) == RunAsWritten(o2, []);
    assert RunAsWritten(o, ops) == RunAsWritten(o1, ops[1..]);
  }

  /** With guarded deletion the seal is permanent: from a sealed object
      every non-empty run of operations fails and yields no new object. */
  lemma SealIsPermanent(o: IPObject, ops: seq<Op>)
    requires Finalized(o)
    ensures |ops| == 0 ==> Run(o, ops) == Success(o)
    ensures |ops| > 0 ==> Run(o, ops) == Failure(CannotSetAttribute)
  {
  }

  /** A constructed IP address is sealed when the constructor returns:
      no caller can assign (or, with guarded deletion, delete) anything. */
  lemma InitSealsAgainstCallers(x: Raw, ops: seq<Op>)
    ensures Init(x).Success? && |ops| > 0 ==> Run(Init(x).value, ops) == Failure(CannotSetAttribute)
    ensures Init(x).Success? ==> forall n, v :: SetAttr(Init(x).value, n, v) == Failure(CannotSetAttribute)
  {
    if Init(x).Success? {
      SealIsPermanent(Init(x).value, ops);
    }
  }

  /** Before sealing, a run of assignments that does not touch
      `_finalized` always succeeds, leaves the object open, and every
      name written is present afterwards. */
  lemma {:induction false} UnsealedAssignmentsSucceed(o: IPObject, ops: seq<Op>)
    requires !Finalized(o)
    requires forall i :: 0 <= i < |ops| ==> ops[i].Assign? && ops[i].name != FinalizedKey
    ensures Run(o, ops).Success?
    ensures !Finalized(Run(o, ops).value)
    ensures forall i :: 0 <= i < |ops| ==> ops[i].name in Run(o, ops).value.attrs
    decreases |ops|
  {
    if |ops| > 0 {
      var o' := SetAttr(o, ops[0].name, ops[0].value).value;
      assert !Finalized(o');
      UnsealedAssignmentsSucceed(o', ops[1..]);
      forall i | 0 <= i < |ops|
        ensures ops[i].name in Run(o, ops).value.attrs
      {
        if i > 0 {
          assert ops[1..][i - 1] == ops[i];
        } else {
          AssignmentsKeepNames(o', ops[1..], ops[0].name);
        }
      }
    }
  }

  lemma {:induction false} AssignmentsKeepNames(o: IPObject, ops: seq<Op>, name: string)
    requires name in o.attrs
    requires forall i :: 0 <= i < |ops| ==> ops[i].Assign?
    requires Run(o, ops).Success?
    ensures name in Run(o, ops).value.attrs
    decreases |ops|
  {
    if |ops| > 0 {
      var o' := SetAttr(o, ops[0].name, ops[0].value).value;
      AssignmentsKeepNames(o', ops[1..], name);
    }
  }
}
