# minFraud response records, modelled in Dafny

The minFraud client turns the JSON body of a minFraud Score or Insights
response into a tree of read-only records. Every record class (`Issuer`,
`CreditCard`, `BillingAddress`, `ShippingAddress`, `Warning`, `Insights`,
`Score`) declares a `_fields` table. The table maps each field name to a
default, which is either a constant (always None in this module) or a
callable. The decorator `_inflate_to_namedtuple` turns such a class into
a named tuple whose fields are the sorted field names. The named tuple's
constructor accepts two call forms:
- a single raw dict: every declared field is resolved from the dict, and
  a callable default is applied to the raw sub-value;
- keywords: the values are stored as given.

Supplying both forms, or more than one dict, is refused. `IPAddress` is
the one mutable record. The external geolocation base builds it, it then
receives its own `country`, `location` and `risk` attributes, and it is
sealed by setting `_finalized`. From then on every attribute assignment
is refused.

The project has six modules:

- `Results` (results.dfy) holds the `Result` type and the exceptions the
  code can raise.
- `Ordering` (ordering.dfy) holds lexicographic string order and
  `sorted()` on a set of keys.
- `RawValues` (raw.dfy) models parsed JSON, Python truthiness, `dict.get`,
  and what iterating a value yields.
- `IPAddresses` (ipaddress.dfy) models `IPAddress.__init__` and the
  guarded `__setattr__` as a machine over an attribute map, together with
  the unguarded deletion.
- `Models` (models.dfy) holds the field tables, the positional and
  keyword construction paths, `_create_warnings` and the `input`
  normaliser. Termination of the recursion through nested record
  constructors is proved by ranking the shapes.
- `Properties` (properties.dfy) holds what the machinery promises its
  callers, proved over the model.

Error names stand for Python exceptions:

| error | Python exception |
|---|---|
| `AmbiguousArguments` | the `ValueError` of line 40 |
| `NoGetAttribute` | the `AttributeError` of `.get` on a non-dict |
| `NotIterable` | a `TypeError` from `tuple(x)` or `for` |
| `NotKeywordMapping` | a `TypeError` from `**x` |
| `UnexpectedKeyword` | a `TypeError` from the named tuple's own constructor |
| `CannotSetAttribute` | the `AttributeError` of line 197 |
| `NoSuchAttribute` | the `AttributeError` of deleting a missing attribute |

Three behaviours of the code are easy to miss:

- **Keyword path.** On the keyword path every missing field is None,
  callable defaults included (minfraud/models.py:27). No callable runs,
  so `CreditCard()` has `issuer == None`. `CreditCard({})`, by contrast,
  has a blank issuer record (`NoArgumentsGivesNones`, `EmptyCreditCard`).
- **Deletion.** The comment at minfraud/models.py:193-194 says the class
  exists to make the object immutable. `IPAddress` guards only
  assignment, though, so a deletion goes through (see Findings).
- **IP address input.** The generic records treat any falsy argument as
  `{}` (line 43). `IPAddress` replaces only None (lines 182-183), so an
  empty list or string fails there at `.get`.

## Model

| member | source | states |
|---|---|---|
| Models.Table | minfraud/models.py:241-581 | the seven `_fields` tables, in the order written: every constant default is None, and every callable default builds a record or tuple of smaller nesting depth, so a record tree is finite and acyclic |
| Ordering.SortedKeys | minfraud/models.py:21 | `sorted(keys)`: strictly increasing, and holds exactly the given keys, each once |
| Models.FieldOrder | minfraud/models.py:21-25 | the named tuple's positional fields are the declared names in strictly sorted order, one slot per declared field |
| Models.AsMapping | minfraud/models.py:43 | a falsy argument becomes `{}`; a dict is used as is; any other truthy value fails with the `.get` AttributeError, and these are the only outcomes |
| Models.Inflate | minfraud/models.py:42-51 | inflating one raw argument yields a record of the requested shape carrying exactly its declared fields; it can fail only with a data error, never an argument error |
| Models.ResolveFields | minfraud/models.py:45-49 | the loop over `fields.items()` assigns exactly the declared names, or fails with a data error |
| Models.Resolve | minfraud/models.py:46-49 | a constant-default field takes `values.get(field, default)`; only a callable default can fail |
| Models.Apply | minfraud/models.py:46-47 | a nested-record callable yields a well-formed record of its shape; the warnings and input normalisers yield tuples; the IP address callable yields a sealed object |
| Models.InflateAll | minfraud/models.py:60 | `[Warning(x) for x in warnings]` keeps length and order, element i is the inflation of raw element i, and it succeeds exactly when every element inflates |
| Models.FromKeywords | minfraud/models.py:25-27 | the keyword path fails exactly when a keyword is not a declared field; otherwise supplied values are stored as given and every other field is None |
| Models.Positional | minfraud/models.py:21-27 | the tuple view has one slot per declared field, and every field's value appears in it |
| Models.Construct | minfraud/models.py:38-51 | construction fails with the ambiguity ValueError exactly when both argument forms are given or more than one positional; otherwise one positional inflates and keywords take the keyword path |
| RawValues.Iterate | minfraud/models.py:453 | `tuple(x)`: a list gives its items in order, a string its one-character strings, a dict its keys; None, numbers and booleans raise TypeError and nothing else does |
| IPAddresses.AsResponse | minfraud/models.py:182-184 | None becomes `{}`, a dict is used as is, and anything else fails at `.get`; these are the only outcomes |
| IPAddresses.Finalized | minfraud/models.py:196 | `hasattr(self, '_finalized') and self._finalized`: an object without `_finalized` is open, one whose `_finalized` is True is sealed, and one whose `_finalized` is False or None is open |
| IPAddresses.KeywordArgs | minfraud/models.py:188-189 | `**ip_address.get(key, {})` passes the sub-dict's entries, an absent key passes none, and a non-dict value fails |
| IPAddresses.SetAttr | minfraud/models.py:195-198 | assignment fails exactly when the object is sealed; otherwise it stores the value under the name and leaves every other attribute and the base unchanged |
| IPAddresses.Init | minfraud/models.py:181-191 | construction succeeds exactly for None or a dict whose country and location are absent or dicts; the result is sealed, `_locales` is removed from the response and passed as the locales to the base and the country, risk is `get('risk')`, an absent country or location gets no keywords, a present one gets the sub-dict's entries, and the attributes are exactly country, location, risk and `_finalized` |
| IPAddresses.InitSealsAgainstCallers | minfraud/models.py:191-198 | once the constructor returns, every assignment is refused, and so is every non-empty run of assignments and guarded deletions |
| IPAddresses.InitOfNothing | minfraud/models.py:181-191 | `IPAddress(None)` yields the sealed object with empty country and location, risk None and no locales |
| IPAddresses.DelAttrAsWritten | minfraud/models.py:193-198 | the class defines no deletion guard: deleting succeeds exactly when the attribute exists, whether or not the object is sealed, and removes that attribute alone |
| IPAddresses.DeletionReopensSealed | minfraud/models.py:193-198 | on a sealed object, deleting `_finalized` and then assigning succeeds and stores the new value |
| IPAddresses.DelAttr | minfraud/models.py:193-198 | deletion guarded like assignment: refused on a sealed object; otherwise it behaves as the unguarded deletion, removing exactly the named attribute and failing when it is missing |
| IPAddresses.SealIsPermanent | minfraud/models.py:195-198 | with guarded deletion, every non-empty sequence of assignments and deletions on a sealed object fails with the can't-set error |
| IPAddresses.UnsealedAssignmentsSucceed | minfraud/models.py:195-198 | before sealing, any sequence of assignments that avoids `_finalized` succeeds, leaves the object unsealed, and every assigned name is present afterwards |
| Properties.ResolveFieldsSpec | minfraud/models.py:45-49 | resolving a table succeeds exactly when every field resolves, and each field then holds its own resolution |
| Properties.FirstFailureWins | minfraud/models.py:45-49 | on failure, the exception is that of the first field in `fields.items()` order that fails, and all earlier fields resolve |
| Properties.InflateFieldValues | minfraud/models.py:45-49 | inflating a dict succeeds exactly when every callable default succeeds on its raw value; a constant field then holds the raw value or its default, and a callable field holds the callable applied to the raw value or to None |
| Properties.UndeclaredKeysIgnored | minfraud/models.py:45-49 | two dicts that agree on the declared fields inflate to the same result, so extra keys are ignored |
| Properties.FalsyIsEmptyMapping | minfraud/models.py:43 | every falsy argument (None, `{}`, `[]`, `""`, 0, False) inflates exactly like `{}` |
| Properties.EmptyInputInflatesToBlank | minfraud/models.py:42-49 | empty or absent input yields the all-default record, recursively: nested sections are blank records, tuples are empty, and the IP address is the sealed blank object |
| Properties.BlankIssuer | minfraud/models.py:241-246 | the blank `Issuer` has exactly its four declared fields, all None |
| Properties.EmptyCreditCard | minfraud/models.py:284-289 | `CreditCard({})` succeeds with its issuer present as the blank issuer record, not None |
| Properties.InflateWellTyped | minfraud/models.py:42-60 | every inflated record tree is well typed: all declared fields are present, nested sections are well-typed records, warnings are tuples of well-typed warnings, input is a tuple, and the IP address is sealed |
| Properties.InsightsSectionsPresent | minfraud/models.py:523-532 | a successful Insights inflation always has credit_card with an issuer record, billing and shipping records, a sealed ip_address and a warnings tuple, even when the response omits them |
| Properties.WarningsNormalised | minfraud/models.py:57-60 | `_create_warnings`: falsy input gives `()`; a list gives a same-length, same-order tuple of `Warning(raw[i])`, succeeding exactly when each element inflates; a number or boolean raises TypeError |
| Properties.InputNormalised | minfraud/models.py:453 | `Warning.input`: falsy gives `()`, a list its elements in order, a string its characters; a number or boolean raises TypeError |
| Properties.KeywordsRebuildRecord | minfraud/models.py:25-27 | the keyword path is the inverse of taking a record apart: any well-formed record is rebuilt exactly from its own fields |
| Properties.KeywordsRebuildInflated | minfraud/models.py:38-51 | every inflated record is reproduced by calling the class with its fields as keywords |
| Properties.NoArgumentsGivesNones | minfraud/models.py:27 | calling a record class with no arguments succeeds with every declared field None; no callable default runs |
| Properties.PositionalDeterminesRecord | minfraud/models.py:21-27 | the tuple view loses nothing: two well-formed records of one shape are equal exactly when their positional values are equal |
| Properties.WarningFromService | minfraud/models.py:450-454 | a service warning with a code, a message and an input path inflates to the record holding the code, the message and the path as a tuple in the same order |
| Properties.IPAddressExample | minfraud/models.py:181-191 | an IP address section with a country, a risk and `_locales` gives a sealed object with that risk; the country gets the locales and the given keywords and nothing else; `_locales` is gone from the response |

## Left out

- The external geolocation base classes (the geoip2 `Insights` model and
  the `Country` and `Location` records) are not part of this model. The
  base constructor is treated as total. Its result is recorded as the
  response and locales it was given. Its own attributes do not pass
  through the seal: the base runs before `_finalized` exists, so every
  write it makes succeeds.
- `GeoIP2Country` and `GeoIP2Location` are modelled as the keyword
  mapping they receive. Their attribute defaults (`is_high_risk`,
  `local_time` as None) and any keyword they would reject belong to the
  external record classes.
- The class synthesis itself is not modelled: `type(...)`, `__name__`
  rewriting, `update_wrapper`, `__doc__` and `__slots__`. It does not
  change any value a caller sees.
- Scalar values (numbers, strings, booleans) are opaque payloads. Only
  their truthiness matters to the machinery.
- `IPAddresses.Init` models `del ip_address['_locales']` as the response
  minus that key. The mutation of the caller's own dict is not
  modelled, because values here are immutable.
- The named tuple's indexing, iteration, `_replace` and `_asdict` are not
  modelled beyond `Models.Positional`. Records are immutable Dafny
  values, so the "can't set attribute" error on ordinary records cannot
  arise in the model.
- `RawValues.Iterate`: iterating a dict yields its keys in sorted order,
  because a Dafny map has no insertion order; Python yields insertion
  order.
- `Models.FromKeywords`: the unexpected-keyword error does not carry the
  offending name.
- `Models.Construct`: positional arguments are raw JSON values.
  Arbitrary Python objects (a non-dict object with its own `.get`, say)
  are not modelled.
- `Models.Positional` does not state which slot holds which field. That
  slot i holds the field named by the i-th sorted name is the lemma
  `Properties.PositionalAt`, and that nothing is lost is
  `Properties.PositionalDeterminesRecord`.
- `Models.ResolveFields` walks `_fields` in the order the dict literal is
  written. That is what `fields.items()` yields on Python 3.7 and later.
  On Python 2, which the source also supports (lines 15-16), `items()`
  follows hash order. That order decides which exception surfaces when
  several fields are bad: `Insights({"warnings": 5, "credit_card": 7})`
  raises the TypeError of `_create_warnings` here, but may raise the
  AttributeError of `CreditCard` on Python 2. The model assumes Python
  3.7 or later.
- `IPAddresses.DelAttrAsWritten` covers only the attributes `IPAddress`
  itself assigns (country, location, risk, `_finalized`). The attributes
  the external base sets (`city`, `traits` and the others documented at
  lines 121-177) are not in the model. So `del ip.city`, which succeeds
  in Python, gives `NoSuchAttribute` here. The same holds for
  `IPAddresses.DelAttr` on an unsealed object.

## Findings

| source | as written | input that shows it | evidently intended | confidence | as-written member | corrected member |
|---|---|---|---|---|---|---|
| minfraud/models.py:193-198 | `IPAddress` guards `__setattr__` but not `__delattr__`, so `del ip._finalized` succeeds on a sealed object and clears the seal | a sealed `IPAddress`; `del ip._finalized`, then `ip.risk = 99` is accepted | a sealed object refuses deletion as it refuses assignment, so the seal is permanent | medium, not executed | IPAddresses.DeletionReopensSealed | IPAddresses.SealIsPermanent |
