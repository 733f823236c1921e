/** Contract descriptors and the pass that makes submitted values coherent with
    one, from internal/service/contract_catalog.go and internal/models/connection.go. */
module Contracts {
  import opened Basics

  const KIND_STRING := "string"
  const KIND_NUMBER := "number"
  const KIND_BOOLEAN := "boolean"
  const KIND_ENUM := "enum"

  /** Where the name of the credentials Secret is published in a connection's values. */
  const SECRET_REF := "secretRef"

  /** "That other field equals this value." */
  datatype Condition = Condition(field: string, value: string)

  /** A value looked up from another field's value. */
  datatype Derivation = Derivation(from: string, table: map<string, string>)

  datatype Field = Field(
    name: string,
    kind: string,
    required: bool,
    secret: bool,
    default: Value,  // Null when the contract declares none
    options: seq<string>,
    min: Option<real>,
    max: Option<real>,
    showWhen: Option<Condition>,
    derived: Option<Derivation>
  ) {
    /** A field whose condition is not met is neither asked for nor validated. */
    predicate Applies(values: Values) {
      showWhen.None? || StringAt(values, showWhen.value.field) == showWhen.value.value
    }

    /** The keys whose values this field reads. */
    function Sources(): set<string> {
      (if showWhen.Some? then {showWhen.value.field} else {}) + (if derived.Some? then {derived.value.from} else {})
    }
  }

  datatype Descriptor = Descriptor(name: string, external: bool, fields: seq<Field>)

  function Names(fields: seq<Field>): set<string> {
    set f | f in fields :: f.name
  }

  /** The first field of that name, as ContractDescriptor.Field finds it. */
  function FieldNamed(fields: seq<Field>, name: string): (r: Option<Field>)
    ensures r.Some? <==> name in Names(fields)
    ensures r.Some? ==> r.value in fields && r.value.name == name
  {
    if fields == [] then None
    else if fields[0].name == name then Some(fields[0])
    else
      assert forall f :: f in fields <==> f == fields[0] || f in fields[1..];
      FieldNamed(fields[1..], name)
  }

  /** The names of the fields holding credentials, in declaration order. */
  function SecretNames(fields: seq<Field>): seq<string> {
    if fields == [] then []
    else
      var rest := SecretNames(fields[..|fields| - 1]);
      var last := fields[|fields| - 1];
      if last.secret then rest + [last.name] else rest
  }

  method SecretFields(fields: seq<Field>) returns (names: seq<string>)
    ensures names == SecretNames(fields)
    ensures forall name :: name in names
                           <==> exists i :: 0 <= i < |fields| && fields[i].secret && fields[i].name == name
  {
    names := [];
    for i := 0 to |fields|
      invariant names == SecretNames(fields[..i])
      invariant forall name :: name in names <==> exists j :: 0 <= j < i && fields[j].secret && fields[j].name == name
    {
      assert fields[..i + 1][..i] == fields[..i];
      if fields[i].secret {
        names := names + [fields[i].name];
      }
    }
    assert fields[..|fields|] == fields;
  }

  // --- Descriptors ---

  ghost predicate UniqueNames(fields: seq<Field>) {
    forall i, j :: 0 <= i < j < |fields| ==> fields[i].name != fields[j].name
  }

  predicate KnownKind(f: Field) {
    f.kind in {KIND_STRING, KIND_NUMBER, KIND_BOOLEAN} || (f.kind == KIND_ENUM && f.options != [])
  }

  /** What a descriptor must satisfy to be loaded. It says nothing of the order of the fields. */
  ghost predicate Loadable(d: Descriptor) {
    && d.name != ""
    && d.fields != []
    && UniqueNames(d.fields)
    && forall i :: 0 <= i < |d.fields| ==> d.fields[i].name != "" && KnownKind(d.fields[i])
  }

  method ValidateTypeDescriptor(d: Descriptor) returns (ok: bool)
    ensures ok <==> Loadable(d)
  {
    if d.name == "" || |d.fields| == 0 {
      return false;
    }
    var seen: set<string> := {};
    for i := 0 to |d.fields|
      invariant seen == Names(d.fields[..i])
      invariant UniqueNames(d.fields[..i])
      invariant forall j :: 0 <= j < i ==> d.fields[j].name != "" && KnownKind(d.fields[j])
    {
      var f := d.fields[i];
      assert forall j :: 0 <= j < i ==> d.fields[..i][j] == d.fields[j];
      if f.name == "" || f.name in seen {
        return false;
      }
      seen := seen + {f.name};
      if !KnownKind(f) {
        return false;
      }
      assert d.fields[..i + 1] == d.fields[..i] + [f];
    }
    assert d.fields[..|d.fields|] == d.fields;
    return true;
  }

  /** A field that holds what was submitted for it, and nothing else, ever. */
  predicate Inert(f: Field) {
    f.showWhen.None? && f.derived.None? && (f.default == Null || f.secret)
  }

  /** No field reads a key that is changed at its own position or later. */
  ghost predicate SourcesComeFirst(fields: seq<Field>) {
    forall i, j :: 0 <= i <= j < |fields| ==> fields[j].name !in fields[i].Sources() || Inert(fields[j])
  }

  ghost predicate WellOrdered(fields: seq<Field>) {
    UniqueNames(fields) && SourcesComeFirst(fields)
  }

  // --- Normalize ---

  /** What the loop of Normalize does for one field. */
  function Settle(f: Field, out: Values): Values {
    if !f.Applies(out) then out - {f.name}
    else if f.derived.Some? then
      var source := StringAt(out, f.derived.value.from);
      if source in f.derived.value.table then out[f.name := Str(f.derived.value.table[source])] else out
    else if f.name !in out && f.default != Null && !f.secret then out[f.name := f.default]
    else out
  }

  /** The fields settled one after the other, in declaration order. */
  function Normalized(fields: seq<Field>, values: Values): Values {
    if fields == [] then values
    else Settle(fields[|fields| - 1], Normalized(fields[..|fields| - 1], values))
  }

  method Normalize(fields: seq<Field>, values: Values) returns (out: Values)
    ensures out == Normalized(fields, values)
  {
    out := values;
    for i := 0 to |fields|
      invariant out == Normalized(fields[..i], values)
    {
      var f := fields[i];
      assert fields[..i + 1][..i] == fields[..i];
      if !f.Applies(out) {
        out := out - {f.name};
        continue;
      }
      if f.derived.Some? {
        var source := StringAt(out, f.derived.value.from);
        if source in f.derived.value.table {
          out := out[f.name := Str(f.derived.value.table[source])];
        }
        continue;
      }
      if f.name !in out && f.default != Null && !f.secret {
        out := out[f.name := f.default];
      }
    }
    assert fields[..|fields|] == fields;
  }

  /** What a contract wants at a field, given the values as a whole: nothing when
      the field is out of play, its table entry when it is derived, what was
      submitted otherwise, and the default where nothing was. */
  function Wanted(f: Field, submitted: Values, out: Values): Option<Value> {
    if !f.Applies(out) then None
    else if f.derived.Some? then
      var source := StringAt(out, f.derived.value.from);
      if source in f.derived.value.table then Some(Str(f.derived.value.table[source])) else Lookup(submitted, f.name)
    else if f.name in submitted then Some(submitted[f.name])
    else if f.default != Null && !f.secret then Some(f.default)
    else None
  }

  /** A coherent set of values for what was submitted: every field holds what the
      contract wants under these very values, every other key is as submitted. */
  ghost predicate Coherent(fields: seq<Field>, submitted: Values, out: Values) {
    && (forall key :: key !in Names(fields) ==> Lookup(out, key) == Lookup(submitted, key))
    && (forall i :: 0 <= i < |fields| ==> Lookup(out, fields[i].name) == Wanted(fields[i], submitted, out))
  }

  lemma SettleIsItsOwn(f: Field, out: Values, key: string)
    requires key != f.name
    ensures Lookup(Settle(f, out), key) == Lookup(out, key)
  {
  }

  /** A field changes its own key only, and no key is changed past its field. */
  lemma {:induction false} PrefixDecides(fields: seq<Field>, values: Values, i: nat, key: string)
    requires i <= |fields| && key !in Names(fields[i..])
    ensures Lookup(Normalized(fields, values), key) == Lookup(Normalized(fields[..i], values), key)
  {
    if i == |fields| {
      assert fields[..i] == fields;
    } else {
      var before, last := fields[..|fields| - 1], fields[|fields| - 1];
      assert fields[i..] == before[i..] + [last] && before[..i] == fields[..i];
      assert last in fields[i..] && forall f :: f in before[i..] ==> f in fields[i..];
      PrefixDecides(before, values, i, key);
      SettleIsItsOwn(last, Normalized(before, values), key);
    }
  }

  lemma UnchangedBefore(fields: seq<Field>, values: Values, i: nat, key: string)
    requires i <= |fields| && key !in Names(fields[..i])
    ensures Lookup(Normalized(fields[..i], values), key) == Lookup(values, key)
  {
    PrefixDecides(fields[..i], values, 0, key);
    assert fields[..i][0..] == fields[..i];
  }

  lemma NameIsNotElsewhere(fields: seq<Field>, i: nat)
    requires UniqueNames(fields) && i < |fields|
    ensures fields[i].name !in Names(fields[..i]) && fields[i].name !in Names(fields[i + 1..])
  {
  }

  lemma SettleIsWanted(f: Field, submitted: Values, out: Values)
    requires Lookup(out, f.name) == Lookup(submitted, f.name)
    ensures Lookup(Settle(f, out), f.name) == Wanted(f, submitted, out)
  {
  }

  /** A field ends as it wanted to when its turn came. */
  lemma SettledAtItsTurn(fields: seq<Field>, values: Values, i: nat)
    requires UniqueNames(fields) && i < |fields|
    ensures Lookup(Normalized(fields, values), fields[i].name)
        == Wanted(fields[i], values, Normalized(fields[..i], values))
  {
    NameIsNotElsewhere(fields, i);
    PrefixDecides(fields, values, i + 1, fields[i].name);
    UnchangedBefore(fields, values, i, fields[i].name);
    assert fields[..i + 1][..i] == fields[..i];
    SettleIsWanted(fields[i], values, Normalized(fields[..i], values));
  }

  /** For any fields at all, a submission is settled in one pass exactly when every field
      still wants under the final values what it got at its turn. */
  lemma OnePassSettlesExactly(fields: seq<Field>, values: Values)
    requires UniqueNames(fields)
    ensures var out := Normalized(fields, values);
            Normalized(fields, out) == out
            <==> forall i :: 0 <= i < |fields| ==>
                               Wanted(fields[i], out, out)
                               == Wanted(fields[i], values, Normalized(fields[..i], values))
  {
    var out := Normalized(fields, values);
    FixedExactlyWhenCoherent(fields, out);
    forall i | 0 <= i < |fields|
      ensures Lookup(out, fields[i].name) == Wanted(fields[i], values, Normalized(fields[..i], values))
    {
      SettledAtItsTurn(fields, values, i);
    }
  }

  /** The first field that is not settled has read a key that changed after its turn. */
  lemma UnsettledMeansALateSource(fields: seq<Field>, values: Values) returns (i: nat, key: string)
    requires UniqueNames(fields) && Normalized(fields, Normalized(fields, values)) != Normalized(fields, values)
    ensures i < |fields| && key in fields[i].Sources()
    ensures Lookup(Normalized(fields[..i], values), key) != Lookup(Normalized(fields, values), key)
    ensures var out := Normalized(fields, values);
            && Wanted(fields[i], out, out) != Lookup(out, fields[i].name)
            && forall j :: 0 <= j < i ==> Wanted(fields[j], out, out) == Lookup(out, fields[j].name)
  {
    var out := Normalized(fields, values);
    FixedExactlyWhenCoherent(fields, out);
    i := 0;
    while i < |fields| && Wanted(fields[i], out, out) == Lookup(out, fields[i].name)
      invariant i <= |fields|
      invariant forall j :: 0 <= j < i ==> Wanted(fields[j], out, out) == Lookup(out, fields[j].name)
    {
      i := i + 1;
    }
    assert i < |fields|;
    SettledAtItsTurn(fields, values, i);
    if forall k :: k in fields[i].Sources() ==> Lookup(Normalized(fields[..i], values), k) == Lookup(out, k) {
      SourcesDecide(fields[i], values, Normalized(fields[..i], values), out);
      WantedAgain(fields[i], values, out);
      assert false;
    }
    key :| key in fields[i].Sources() && Lookup(Normalized(fields[..i], values), key) != Lookup(out, key);
  }

  /** A field that got what it wants wants it again. */
  lemma WantedAgain(f: Field, submitted: Values, out: Values)
    requires Lookup(out, f.name) == Wanted(f, submitted, out)
    ensures Wanted(f, out, out) == Lookup(out, f.name)
  {
  }

  /** A field that rests on no other. */
  predicate Free(f: Field) {
    f.showWhen.None? && f.derived.None?
  }

  function IndexOf(fields: seq<Field>, f: Field): (i: nat)
    requires f in fields
    ensures i < |fields| && fields[i] == f
  {
    if fields[0] == f then 0 else 1 + IndexOf(fields[1..], f)
  }

  /** A free field keeps what was submitted for it, and else gets its default at its turn. */
  lemma LateSource(fields: seq<Field>, values: Values, i: nat, j: nat)
    requires UniqueNames(fields) && i <= j < |fields| && Free(fields[j])
    ensures var f := fields[j];
            && Lookup(Normalized(fields[..i], values), f.name) == Lookup(values, f.name)
            && Lookup(Normalized(fields, values), f.name)
               == if f.name in values then Some(values[f.name])
                  else if f.default != Null && !f.secret then Some(f.default) else None
  {
    NameIsNotElsewhere(fields, j);
    SettledAtItsTurn(fields, values, j);
    assert forall f :: f in fields[..i] ==> f in fields[..j];
    UnchangedBefore(fields, values, i, fields[j].name);
  }

  /** What a field wants depends on the values only through its sources. */
  lemma SourcesDecide(f: Field, submitted: Values, a: Values, b: Values)
    requires forall key :: key in f.Sources() ==> Lookup(a, key) == Lookup(b, key)
    ensures f.Applies(a) == f.Applies(b)
    ensures Wanted(f, submitted, a) == Wanted(f, submitted, b)
  {
    if f.showWhen.Some? {
      assert Lookup(a, f.showWhen.value.field) == Lookup(b, f.showWhen.value.field);
    }
    if f.derived.Some? {
      assert Lookup(a, f.derived.value.from) == Lookup(b, f.derived.value.from);
    }
  }

  /** One pass in declaration order is enough when sources come first. */
  lemma NormalizedIsCoherent(fields: seq<Field>, values: Values)
    requires WellOrdered(fields)
    ensures Coherent(fields, values, Normalized(fields, values))
  {
    forall key | key !in Names(fields)
      ensures Lookup(Normalized(fields, values), key) == Lookup(values, key)
    {
      UnchangedBefore(fields, values, |fields|, key);
      assert fields[..|fields|] == fields;
    }
    forall i | 0 <= i < |fields|
      ensures Lookup(Normalized(fields, values), fields[i].name)
          == Wanted(fields[i], values, Normalized(fields, values))
    {
      SettledAtItsTurn(fields, values, i);
      forall key | key in fields[i].Sources()
        ensures Lookup(Normalized(fields[..i], values), key) == Lookup(Normalized(fields, values), key)
      {
        SourceIsSettled(fields, values, i, key);
      }
      SourcesDecide(fields[i], values, Normalized(fields[..i], values), Normalized(fields, values));
    }
  }

  /** What a field reads at its turn is final when sources come first. */
  lemma SourceIsSettled(fields: seq<Field>, values: Values, i: nat, key: string)
    requires WellOrdered(fields) && i < |fields| && key in fields[i].Sources()
    ensures Lookup(Normalized(fields[..i], values), key) == Lookup(Normalized(fields, values), key)
  {
    var late := FieldNamed(fields[i..], key);
    if late.Some? {
      var j := i + IndexOf(fields[i..], late.value);
      assert Inert(fields[j]);
      LateSource(fields, values, i, j);
    } else {
      PrefixDecides(fields, values, i, key);
    }
  }

  lemma {:induction false} CoherentAgree(fields: seq<Field>, submitted: Values, a: Values, b: Values, n: nat)
    requires WellOrdered(fields) && n <= |fields|
    requires Coherent(fields, submitted, a) && Coherent(fields, submitted, b)
    ensures forall i :: 0 <= i < n ==> Lookup(a, fields[i].name) == Lookup(b, fields[i].name)
  {
    if n > 0 {
      CoherentAgree(fields, submitted, a, b, n - 1);
      var f := fields[n - 1];
      forall key | key in f.Sources()
        ensures Lookup(a, key) == Lookup(b, key)
      {
        if key in Names(fields) {
          var i :| 0 <= i < |fields| && fields[i].name == key;
          assert i < n - 1 || Inert(fields[i]);
        }
      }
      SourcesDecide(f, submitted, a, b);
    }
  }

  /** There is only one coherent set of values for a submission. */
  lemma CoherentIsUnique(fields: seq<Field>, submitted: Values, a: Values, b: Values)
    requires WellOrdered(fields)
    requires Coherent(fields, submitted, a) && Coherent(fields, submitted, b)
    ensures a == b
  {
    CoherentAgree(fields, submitted, a, b, |fields|);
    forall key
      ensures Lookup(a, key) == Lookup(b, key)
    {
      if key in Names(fields) {
        var i :| 0 <= i < |fields| && fields[i].name == key;
      }
    }
    SameLookups(a, b);
  }

  /** Normalize computes the coherent set of values and nothing else does. */
  lemma NormalizeIsTheCoherentForm(fields: seq<Field>, values: Values, out: Values)
    requires WellOrdered(fields)
    ensures out == Normalized(fields, values) <==> Coherent(fields, values, out)
  {
    NormalizedIsCoherent(fields, values);
    if Coherent(fields, values, out) {
      CoherentIsUnique(fields, values, out, Normalized(fields, values));
    }
  }

  /** Normalizing twice is normalizing once. */
  lemma NormalizeIsIdempotent(fields: seq<Field>, values: Values)
    requires WellOrdered(fields)
    ensures Normalized(fields, Normalized(fields, values)) == Normalized(fields, values)
  {
    var out := Normalized(fields, values);
    NormalizedIsCoherent(fields, values);
    NormalizeIsTheCoherentForm(fields, out, out);
  }

  /** What the callers of Normalize rely on, field by field, under the final values. */
  lemma NormalizedFieldsAreSettled(fields: seq<Field>, values: Values, f: Field)
    requires WellOrdered(fields) && f in fields
    ensures var out := Normalized(fields, values);
            && (f.name in out ==> f.Applies(out))
            && (f.Applies(out) && f.derived.Some? && StringAt(out, f.derived.value.from) in f.derived.value.table
                ==> Lookup(out, f.name) == Some(Str(f.derived.value.table[StringAt(out, f.derived.value.from)])))
            && (f.Applies(out) && f.derived.None? && f.name !in values && f.default != Null && !f.secret
                ==> Lookup(out, f.name) == Some(f.default))
            && (f.Applies(out) && f.derived.None? && f.name in values ==> Lookup(out, f.name) == Some(values[f.name]))
  {
    NormalizedIsCoherent(fields, values);
    var i :| 0 <= i < |fields| && fields[i] == f;
  }

  // --- Normalizing, told field by field ---

  /** What a field holds once a submission has been normalized, in the words of the
      contract and under the final values: nothing when it is not shown, the entry of
      its table when it is derived and its source is known, what was submitted
      otherwise, and the default where nothing was, unless it is a credential. */
  ghost predicate IsSettled(f: Field, submitted: Values, out: Values) {
    var shown := f.showWhen.None? || ReadsAs(out, f.showWhen.value.field, f.showWhen.value.value);
    if !shown then f.name !in out
    else if f.derived.None? then
      Lookup(out, f.name) == if f.name in submitted then Some(submitted[f.name])
                             else if f.default != Null && !f.secret then Some(f.default) else None
    else
      && (forall source :: source in f.derived.value.table && ReadsAs(out, f.derived.value.from, source)
                           ==> Lookup(out, f.name) == Some(Str(f.derived.value.table[source])))
      && ((forall source :: source in f.derived.value.table ==> !ReadsAs(out, f.derived.value.from, source))
          ==> Lookup(out, f.name) == Lookup(submitted, f.name))
  }

  lemma ReadsAsItsText(values: Values, key: string, text: string)
    ensures ReadsAs(values, key, text) <==> StringAt(values, key) == text
  {
  }

  lemma WantedMeansSettled(f: Field, submitted: Values, out: Values)
    requires Lookup(out, f.name) == Wanted(f, submitted, out)
    ensures IsSettled(f, submitted, out)
  {
    if f.showWhen.Some? {
      ReadsAsItsText(out, f.showWhen.value.field, f.showWhen.value.value);
    }
    if f.derived.Some? {
      forall source
        ensures ReadsAs(out, f.derived.value.from, source) <==> StringAt(out, f.derived.value.from) == source
      {
        ReadsAsItsText(out, f.derived.value.from, source);
      }
    }
  }

  /** Normalizing settles every field and leaves every other key alone. */
  lemma NormalizingSettlesEveryField(fields: seq<Field>, values: Values)
    requires WellOrdered(fields)
    ensures forall f :: f in fields ==> IsSettled(f, values, Normalized(fields, values))
    ensures forall key :: key !in Names(fields) ==> Lookup(Normalized(fields, values), key) == Lookup(values, key)
  {
    NormalizedIsCoherent(fields, values);
    forall f | f in fields
      ensures IsSettled(f, values, Normalized(fields, values))
    {
      var i :| 0 <= i < |fields| && fields[i] == f;
      WantedMeansSettled(f, values, Normalized(fields, values));
    }
  }

  // --- Normalizing in any order ---

  lemma SettleChangesNothing(f: Field, out: Values)
    ensures Settle(f, out) == out <==> Lookup(out, f.name) == Wanted(f, out, out)
  {
    assert Settle(f, out) == out ==> Lookup(Settle(f, out), f.name) == Lookup(out, f.name);
  }

  lemma {:induction false} CoherentIsFixed(fields: seq<Field>, out: Values, n: nat)
    requires n <= |fields| && Coherent(fields, out, out)
    ensures Normalized(fields[..n], out) == out
  {
    if n > 0 {
      CoherentIsFixed(fields, out, n - 1);
      assert fields[..n][..n - 1] == fields[..n - 1];
      SettleChangesNothing(fields[n - 1], out);
    }
  }

  lemma FixedAllAlong(fields: seq<Field>, out: Values, n: nat)
    requires UniqueNames(fields) && n <= |fields| && Normalized(fields, out) == out
    ensures Normalized(fields[..n], out) == out
  {
    forall key
      ensures Lookup(Normalized(fields[..n], out), key) == Lookup(out, key)
    {
      if key in Names(fields[..n]) {
        var i :| 0 <= i < n && fields[i].name == key;
        PrefixDecides(fields, out, n, key);
      } else {
        UnchangedBefore(fields, out, n, key);
      }
    }
    SameLookups(Normalized(fields[..n], out), out);
  }

  /** Whatever the order of the fields, normalizing leaves values as they are exactly
      when they are coherent as they are. */
  lemma FixedExactlyWhenCoherent(fields: seq<Field>, out: Values)
    requires UniqueNames(fields)
    ensures Normalized(fields, out) == out <==> Coherent(fields, out, out)
  {
    if Coherent(fields, out, out) {
      CoherentIsFixed(fields, out, |fields|);
      assert fields[..|fields|] == fields;
    }
    if Normalized(fields, out) == out {
      forall i | 0 <= i < |fields|
        ensures Lookup(out, fields[i].name) == Wanted(fields[i], out, out)
      {
        FixedAllAlong(fields, out, i);
        SettledAtItsTurn(fields, out, i);
      }
    }
  }

  /** What the fields read rests on nothing else: conditions and derivations do not
      chain. The order is free. */
  ghost predicate SourcesAreFree(fields: seq<Field>) {
    forall i, j :: 0 <= i < |fields| && 0 <= j < |fields| && fields[j].name in fields[i].Sources() ==> Free(fields[j])
  }

  /** The text a field gets by default, "" for none. */
  function DefaultText(f: Field): string {
    if f.default.Str? && !f.secret then f.default.s else ""
  }

  /** The text a key gets by default once field i has had its turn. */
  function LateText(fields: seq<Field>, i: nat, key: string): Option<string>
    requires i <= |fields|
  {
    var late := FieldNamed(fields[i..], key);
    if late.Some? && DefaultText(late.value) != "" then Some(DefaultText(late.value)) else None
  }

  /** Being shown for the first time, the field gets a value of its own. */
  predicate GetsAValue(f: Field, text: string)
    requires f.showWhen.Some?
  {
    if f.derived.None? then f.default != Null && !f.secret
    else if f.derived.value.from == f.showWhen.value.field then text in f.derived.value.table
    else f.derived.value.table != map[]
  }

  /** A default that comes too late for field i shows or hides it, to some effect. */
  predicate ShownTooLate(fields: seq<Field>, i: nat)
    requires i < |fields|
  {
    var f := fields[i];
    && f.showWhen.Some?
    && var text := LateText(fields, i, f.showWhen.value.field);
    && text.Some?
    && (f.showWhen.value.value == "" || (f.showWhen.value.value == text.value && GetsAValue(f, text.value)))
  }

  /** A default that comes too late for field i gives it another value. */
  predicate DerivedTooLate(fields: seq<Field>, i: nat)
    requires i < |fields|
  {
    var f := fields[i];
    && f.derived.Some? && (f.showWhen.None? || f.showWhen.value.field != f.derived.value.from)
    && var text, table := LateText(fields, i, f.derived.value.from), f.derived.value.table;
    && text.Some? && text.value in table && !("" in table && table[""] == table[text.value])
  }

  /** What a field reads at its turn is what the result holds, but for a key that was
      not submitted and gets its default later. */
  lemma SourceText(fields: seq<Field>, values: Values, i: nat, key: string)
    requires UniqueNames(fields) && SourcesAreFree(fields) && i < |fields| && key in fields[i].Sources()
    ensures var atTurn := StringAt(Normalized(fields[..i], values), key);
            var text := StringAt(Normalized(fields, values), key);
            if key !in values && LateText(fields, i, key).Some?
            then atTurn == "" && text == LateText(fields, i, key).value
            else atTurn == text && (key in values ==> text == StringAt(values, key))
  {
    if FieldNamed(fields[i..], key).Some? {
      SourceIsLate(fields, values, i, key);
    } else {
      SourceIsEarly(fields, values, i, key);
    }
  }

  lemma SourceIsLate(fields: seq<Field>, values: Values, i: nat, key: string)
    requires UniqueNames(fields) && SourcesAreFree(fields) && i < |fields| && key in fields[i].Sources()
    requires FieldNamed(fields[i..], key).Some?
    ensures var atTurn := StringAt(Normalized(fields[..i], values), key);
            var text := StringAt(Normalized(fields, values), key);
            if key in values then atTurn == text == StringAt(values, key)
            else atTurn == "" && text == DefaultText(FieldNamed(fields[i..], key).value)
  {
    var late := FieldNamed(fields[i..], key).value;
    var j := i + IndexOf(fields[i..], late);
    assert fields[j] == late && Free(fields[j]);
    LateSourceText(fields, values, i, j);
  }

  lemma SourceIsEarly(fields: seq<Field>, values: Values, i: nat, key: string)
    requires UniqueNames(fields) && SourcesAreFree(fields) && i < |fields| && key in fields[i].Sources()
    requires FieldNamed(fields[i..], key).None?
    ensures var atTurn := StringAt(Normalized(fields[..i], values), key);
            var text := StringAt(Normalized(fields, values), key);
            atTurn == text && (key in values ==> text == StringAt(values, key))
  {
    var before, out := Normalized(fields[..i], values), Normalized(fields, values);
    PrefixDecides(fields, values, i, key);
    LookupDecidesText(before, key);
    LookupDecidesText(out, key);
    if key in values {
      EarlierSourceText(fields, values, i, key);
      LookupDecidesText(values, key);
    }
  }

  lemma LateSourceText(fields: seq<Field>, values: Values, i: nat, j: nat)
    requires UniqueNames(fields) && i <= j < |fields| && Free(fields[j])
    ensures var key := fields[j].name;
            var atTurn := StringAt(Normalized(fields[..i], values), key);
            var text := StringAt(Normalized(fields, values), key);
            if key in values then atTurn == text == StringAt(values, key)
            else atTurn == "" && text == DefaultText(fields[j])
  {
    LateSource(fields, values, i, j);
    LookupDecidesText(Normalized(fields[..i], values), fields[j].name);
    LookupDecidesText(Normalized(fields, values), fields[j].name);
    LookupDecidesText(values, fields[j].name);
  }

  lemma LookupDecidesText(m: Values, key: string)
    ensures StringAt(m, key) == if Lookup(m, key).Some? && Lookup(m, key).value.Str? then Lookup(m, key).value.s else ""
  {
  }

  lemma EarlierSourceText(fields: seq<Field>, values: Values, i: nat, key: string)
    requires UniqueNames(fields) && SourcesAreFree(fields) && i < |fields| && key in fields[i].Sources()
    requires key !in Names(fields[i..]) && key in values
    ensures Lookup(Normalized(fields, values), key) == Some(values[key])
  {
    if key in Names(fields) {
      var j :| 0 <= j < |fields| && fields[j].name == key;
      assert Free(fields[j]);
      SettledAtItsTurn(fields, values, j);
    } else {
      PrefixDecides(fields, values, 0, key);
      assert fields[0..] == fields && fields[..0] == [];
    }
  }

  /** Nothing comes too late for field i. */
  lemma SettledOnceAndForAll(fields: seq<Field>, values: Values, i: nat)
    requires UniqueNames(fields) && SourcesAreFree(fields) && i < |fields|
    requires !ShownTooLate(fields, i) && !DerivedTooLate(fields, i)
    ensures var out := Normalized(fields, values);
            Lookup(out, fields[i].name) == Wanted(fields[i], out, out)
  {
    var f := fields[i];
    SettledAtItsTurn(fields, values, i);
    if f.showWhen.Some? {
      SourceText(fields, values, i, f.showWhen.value.field);
    }
    if f.derived.Some? {
      SourceText(fields, values, i, f.derived.value.from);
    }
  }

  /** A field that rests on another is none that another rests on, itself included. */
  lemma ReadersAreNotRead(fields: seq<Field>, i: nat)
    requires SourcesAreFree(fields) && i < |fields| && !Free(fields[i])
    ensures fields[i].name !in fields[i].Sources()
  {
  }

  lemma HiddenTooLate(fields: seq<Field>, i: nat) returns (values: Values)
    requires UniqueNames(fields) && SourcesAreFree(fields) && i < |fields|
    requires ShownTooLate(fields, i) && fields[i].showWhen.value.value == ""
    ensures var out := Normalized(fields, values); Lookup(out, fields[i].name) != Wanted(fields[i], out, out)
  {
    var f := fields[i];
    values := map[f.name := Null];
    ReadersAreNotRead(fields, i);
    SettledAtItsTurn(fields, values, i);
    SourceText(fields, values, i, f.showWhen.value.field);
  }

  lemma AppearsTooLate(fields: seq<Field>, i: nat) returns (values: Values)
    requires UniqueNames(fields) && SourcesAreFree(fields) && i < |fields|
    requires ShownTooLate(fields, i) && fields[i].showWhen.value.value != ""
    ensures var out := Normalized(fields, values); Lookup(out, fields[i].name) != Wanted(fields[i], out, out)
  {
    var f := fields[i];
    values := map[];
    if f.derived.Some? && f.derived.value.from != f.showWhen.value.field {
      var table := f.derived.value.table;
      assert table.Keys != {};
      var known :| known in table;
      values := map[f.derived.value.from := Str(known)];
    }
    ReadersAreNotRead(fields, i);
    SettledAtItsTurn(fields, values, i);
    SourceText(fields, values, i, f.showWhen.value.field);
    if f.derived.Some? {
      SourceText(fields, values, i, f.derived.value.from);
    }
  }

  lemma FollowsTooLate(fields: seq<Field>, i: nat) returns (values: Values)
    requires UniqueNames(fields) && SourcesAreFree(fields) && i < |fields| && DerivedTooLate(fields, i)
    ensures var out := Normalized(fields, values); Lookup(out, fields[i].name) != Wanted(fields[i], out, out)
  {
    var f := fields[i];
    values := if f.showWhen.Some? then map[f.showWhen.value.field := Str(f.showWhen.value.value)] else map[];
    ReadersAreNotRead(fields, i);
    SettledAtItsTurn(fields, values, i);
    SourceText(fields, values, i, f.derived.value.from);
    if f.showWhen.Some? {
      SourceText(fields, values, i, f.showWhen.value.field);
    }
  }

  lemma TooLateIsNotSettled(fields: seq<Field>, i: nat) returns (values: Values)
    requires UniqueNames(fields) && SourcesAreFree(fields) && i < |fields|
    requires ShownTooLate(fields, i) || DerivedTooLate(fields, i)
    ensures Normalized(fields, Normalized(fields, values)) != Normalized(fields, values)
  {
    if !ShownTooLate(fields, i) {
      values := FollowsTooLate(fields, i);
    } else if fields[i].showWhen.value.value == "" {
      values := HiddenTooLate(fields, i);
    } else {
      values := AppearsTooLate(fields, i);
    }
    FixedExactlyWhenCoherent(fields, Normalized(fields, values));
  }

  /** When conditions and derivations do not chain, in whatever order the fields are
      declared, one pass settles every submission exactly when no default comes too
      late: none that shows, hides or derives a field declared before it. */
  lemma OnePassIsEnoughExactlyWhenNothingComesTooLate(fields: seq<Field>)
    requires UniqueNames(fields) && SourcesAreFree(fields)
    ensures (forall values :: Normalized(fields, Normalized(fields, values)) == Normalized(fields, values))
            <==> forall i :: 0 <= i < |fields| ==> !ShownTooLate(fields, i) && !DerivedTooLate(fields, i)
  {
    if i :| 0 <= i < |fields| && (ShownTooLate(fields, i) || DerivedTooLate(fields, i)) {
      var values := TooLateIsNotSettled(fields, i);
    } else {
      forall values
        ensures Normalized(fields, Normalized(fields, values)) == Normalized(fields, values)
      {
        SettledThroughout(fields, values);
      }
    }
  }

  lemma SettledThroughout(fields: seq<Field>, values: Values)
    requires UniqueNames(fields) && SourcesAreFree(fields)
    requires forall i :: 0 <= i < |fields| ==> !ShownTooLate(fields, i) && !DerivedTooLate(fields, i)
    ensures Normalized(fields, Normalized(fields, values)) == Normalized(fields, values)
  {
    var out := Normalized(fields, values);
    forall i | 0 <= i < |fields|
      ensures Lookup(out, fields[i].name) == Wanted(fields[i], out, out)
    {
      SettledOnceAndForAll(fields, values, i);
    }
    FixedExactlyWhenCoherent(fields, out);
  }

  function Plain(name: string, default: Value, showWhen: Option<Condition>): Field {
    Field(name, KIND_STRING, false, false, default, [], None, None, showWhen, None)
  }

  /** Loading does not look at the order: a field shown on the value of a later one
      settles in one pass when the later one has no default, and does not when it has
      the default that shows the field. */
  lemma LoadingAcceptsLateDefaults()
    ensures var tls := Plain("tls", Str("preferred"), Some(Condition("engine", "mysql")));
            && var settled, unsettled := [tls, Plain("engine", Null, None)], [tls, Plain("engine", Str("mysql"), None)];
            && Loadable(Descriptor("late", true, settled)) && Loadable(Descriptor("late", true, unsettled))
            && (forall values :: Normalized(settled, Normalized(settled, values)) == Normalized(settled, values))
            && (exists values :: Normalized(unsettled, Normalized(unsettled, values)) != Normalized(unsettled, values))
  {
    var tls := Plain("tls", Str("preferred"), Some(Condition("engine", "mysql")));
    assert "tls"[0] != "engine"[0];
    var plain, default := Plain("engine", Null, None), Plain("engine", Str("mysql"), None);
    TwoFieldsInTheWrongOrder(tls, plain);
    TwoFieldsInTheWrongOrder(tls, default);
  }

  lemma TwoFieldsInTheWrongOrder(f: Field, source: Field)
    requires f.name != "" && source.name != "" && f.name != source.name && f.kind == source.kind == KIND_STRING
    requires f.showWhen.Some? && f.showWhen.value.field == source.name && f.showWhen.value.value != ""
        && f.derived.None?
    requires Free(source) && !f.secret && !source.secret && f.default != Null
    ensures Loadable(Descriptor("late", true, [f, source]))
    ensures (forall values :: Normalized([f, source], Normalized([f, source], values))
                              == Normalized([f, source], values))
            <==> source.default != Str(f.showWhen.value.value)
  {
    var fields := [f, source];
    assert fields[0] == f && fields[1] == source;
    assert SourcesAreFree(fields);
    OnePassIsEnoughExactlyWhenNothingComesTooLate(fields);
    assert FieldNamed(fields[0..], source.name) == Some(source) by {
      UniqueFieldIsFound(fields, 1);
      assert fields[0..] == fields;
    }
    assert ShownTooLate(fields, 0) <==> source.default == Str(f.showWhen.value.value);
  }

  // --- Validate ---

  datatype Problem = UnknownField | Missing(field: string) | Malformed(field: string)

  /** A field is treated as omitted when it is absent, null or the empty string. */
  predicate Omitted(f: Field, values: Values) {
    f.name !in values || values[f.name] == Null || values[f.name] == Str("")
  }

  predicate WellFormed(f: Field, value: Value) {
    if f.kind == KIND_STRING then value.Str?
    else if f.kind == KIND_BOOLEAN then value.Bool?
    else if f.kind == KIND_NUMBER then
      value.Num? && (f.min.Some? ==> f.min.value <= value.n) && (f.max.Some? ==> value.n <= f.max.value)
    else if f.kind == KIND_ENUM then value.Str? && value.s in f.options
    else true
  }

  function FieldProblem(f: Field, values: Values, requireSecrets: bool): Option<Problem> {
    if !f.Applies(values) then None
    else if Omitted(f, values) then
      if f.required && (requireSecrets || !f.secret) then Some(Missing(f.name)) else None
    else if !WellFormed(f, values[f.name]) then Some(Malformed(f.name))
    else None
  }

  /** The first complaint about the fields, in declaration order. */
  function FirstProblem(fields: seq<Field>, values: Values, requireSecrets: bool): Option<Problem> {
    if fields == [] then None
    else
      var p := FieldProblem(fields[0], values, requireSecrets);
      if p.Some? then p else FirstProblem(fields[1..], values, requireSecrets)
  }

  /** What an accepted submission satisfies, whatever the order of the fields. */
  ghost predicate Accepts(fields: seq<Field>, values: Values, requireSecrets: bool) {
    && values.Keys <= Names(fields)
    && forall f :: f in fields && f.Applies(values) ==>
                     if Omitted(f, values) then f.required ==> f.secret && !requireSecrets
                     else WellFormed(f, values[f.name])
  }

  /** The text under the key is this one; what is no text reads as "". */
  predicate ReadsAs(values: Values, key: string, text: string) {
    if key in values && values[key].Str? then values[key] == Str(text) else text == ""
  }

  /** What a contract asks of one field, in its own words: a field that is shown holds a
      value of its type within its bounds, or nothing where nothing is allowed. */
  predicate Conforms(f: Field, values: Values, requireSecrets: bool) {
    var shown := f.showWhen.None? || ReadsAs(values, f.showWhen.value.field, f.showWhen.value.value);
    var given := f.name in values && values[f.name] !in {Null, Str("")};
    shown ==>
      if given then
        && (f.kind == "string" ==> values[f.name].Str?)
        && (f.kind == "boolean" ==> values[f.name].Bool?)
        && (f.kind == "number" ==> values[f.name].Num?)
        && (f.kind == "number" && f.min.Some? ==> values[f.name].n >= f.min.value)
        && (f.kind == "number" && f.max.Some? ==> values[f.name].n <= f.max.value)
        && (f.kind == "enum" ==> exists i :: 0 <= i < |f.options| && values[f.name] == Str(f.options[i]))
      else !f.required || (f.secret && !requireSecrets)
  }

  lemma KindsDiffer()
    ensures |{KIND_STRING, KIND_NUMBER, KIND_BOOLEAN, KIND_ENUM}| == 4
    ensures KIND_STRING != KIND_NUMBER && KIND_STRING != KIND_BOOLEAN && KIND_STRING != KIND_ENUM
    ensures KIND_NUMBER != KIND_BOOLEAN && KIND_NUMBER != KIND_ENUM && KIND_BOOLEAN != KIND_ENUM
  {
    assert KIND_STRING[0] == 's' && KIND_NUMBER[0] == 'n' && KIND_BOOLEAN[0] == 'b' && KIND_ENUM[0] == 'e';
  }

  lemma NoProblemMeansConforming(f: Field, values: Values, requireSecrets: bool)
    ensures FieldProblem(f, values, requireSecrets).None? <==> Conforms(f, values, requireSecrets)
  {
    KindsDiffer();
    if f.name in values && values[f.name].Str? && values[f.name].s in f.options {
      var i :| 0 <= i < |f.options| && f.options[i] == values[f.name].s;
    }
  }

  lemma AcceptedMeansConforming(fields: seq<Field>, values: Values, requireSecrets: bool)
    ensures Accepts(fields, values, requireSecrets)
            <==> values.Keys <= Names(fields) && forall f :: f in fields ==> Conforms(f, values, requireSecrets)
  {
    NoProblemMeansAccepted(fields, values, requireSecrets);
    forall f | f in fields
      ensures FieldProblem(f, values, requireSecrets).None? <==> Conforms(f, values, requireSecrets)
    {
      NoProblemMeansConforming(f, values, requireSecrets);
    }
  }

  method Validate(fields: seq<Field>, values: Values, requireSecrets: bool) returns (problem: Option<Problem>)
    ensures problem.None? <==> Accepts(fields, values, requireSecrets)
    ensures problem.None?
            <==> values.Keys <= Names(fields) && forall f :: f in fields ==> Conforms(f, values, requireSecrets)
    ensures problem == Some(UnknownField) <==> !(values.Keys <= Names(fields))
    ensures values.Keys <= Names(fields) ==> problem == FirstProblem(fields, values, requireSecrets)
  {
    var keys := values.Keys;
    while keys != {}
      invariant keys <= values.Keys
      invariant values.Keys - keys <= Names(fields)
      decreases keys
    {
      var key :| key in keys;
      if FieldNamed(fields, key).None? {
        return Some(UnknownField);
      }
      keys := keys - {key};
    }
    NoProblemMeansAccepted(fields, values, requireSecrets);
    AcceptedMeansConforming(fields, values, requireSecrets);
    for i := 0 to |fields|
      invariant FirstProblem(fields[i..], values, requireSecrets) == FirstProblem(fields, values, requireSecrets)
    {
      var f := fields[i];
      assert fields[i..][1..] == fields[i + 1..];
      if !f.Applies(values) {
        continue;
      }
      if Omitted(f, values) {
        if f.required && (requireSecrets || !f.secret) {
          return Some(Missing(f.name));
        }
        continue;
      }
      if !WellFormed(f, values[f.name]) {
        return Some(Malformed(f.name));
      }
    }
    return None;
  }

  /** The walk over the fields and the order-free reading of it agree. */
  lemma {:induction false} NoProblemMeansAccepted(fields: seq<Field>, values: Values, requireSecrets: bool)
    ensures FirstProblem(fields, values, requireSecrets).None?
            <==> forall f :: f in fields ==> FieldProblem(f, values, requireSecrets).None?
    ensures values.Keys <= Names(fields) ==>
              (FirstProblem(fields, values, requireSecrets).None? <==> Accepts(fields, values, requireSecrets))
    ensures FirstProblem(fields, values, requireSecrets) != Some(UnknownField)
  {
    if fields != [] {
      NoProblemMeansAccepted(fields[1..], values, requireSecrets);
      assert forall f :: f in fields <==> f == fields[0] || f in fields[1..];
    }
    assert forall f :: f in fields ==>
      (FieldProblem(f, values, requireSecrets).None? <==>
       (f.Applies(values) ==>
          if Omitted(f, values) then f.required ==> f.secret && !requireSecrets else WellFormed(f, values[f.name])));
  }

  // --- Splitting credentials off, and reading a connection back ---

  /** A key whose value belongs in the Connection. */
  predicate IsPublic(fields: seq<Field>, key: string) {
    var field := FieldNamed(fields, key);
    field.Some? && !field.value.secret
  }

  /** A key whose value belongs in the credentials Secret. */
  predicate IsSecret(fields: seq<Field>, key: string) {
    var field := FieldNamed(fields, key);
    field.Some? && field.value.secret
  }

  function PublicPart(fields: seq<Field>, values: Values): Values {
    map key | key in values && IsPublic(fields, key) :: values[key]
  }

  function SecretPart(fields: seq<Field>, values: Values): map<string, string> {
    map key | key in values && IsSecret(fields, key) && values[key].Str? && values[key].s != "" :: values[key].s
  }

  /** Field i is the first declared under the key, and is secret or not. */
  ghost predicate DeclaredAt(fields: seq<Field>, key: string, secret: bool, i: int) {
    && 0 <= i < |fields| && fields[i].name == key && fields[i].secret == secret
    && forall j :: 0 <= j < i ==> fields[j].name != key
  }

  ghost predicate DeclaredAs(fields: seq<Field>, key: string, secret: bool) {
    exists i :: DeclaredAt(fields, key, secret, i)
  }

  lemma DeclaredLater(fields: seq<Field>, key: string, secret: bool, i: int)
    requires fields != [] && fields[0].name != key && i >= 0
    ensures DeclaredAt(fields, key, secret, i + 1) <==> DeclaredAt(fields[1..], key, secret, i)
  {
    var rest := fields[1..];
    assert forall j :: 0 <= j < |rest| ==> rest[j] == fields[j + 1];
    if DeclaredAt(rest, key, secret, i) {
      forall j | 0 <= j < i + 1
        ensures fields[j].name != key
      {
        assert j > 0 ==> rest[j - 1].name != key;
      }
    }
  }

  lemma {:induction false} FoundIsDeclared(fields: seq<Field>, key: string, secret: bool)
    ensures DeclaredAs(fields, key, secret)
            <==> FieldNamed(fields, key).Some? && FieldNamed(fields, key).value.secret == secret
  {
    if fields != [] {
      FoundIsDeclared(fields[1..], key, secret);
      if fields[0].name == key {
        assert fields[0].secret == secret ==> DeclaredAt(fields, key, secret, 0);
      } else {
        if i :| DeclaredAt(fields[1..], key, secret, i) {
          DeclaredLater(fields, key, secret, i);
        }
        if i :| DeclaredAt(fields, key, secret, i) {
          DeclaredLater(fields, key, secret, i - 1);
        }
      }
    }
  }

  /** What splitting keeps and where: values of public fields as they are, the texts of
      secret ones, no empty text, and nothing that is not declared. */
  ghost predicate IsSplit(fields: seq<Field>, values: Values, public: Values, secrets: map<string, string>) {
    && (forall key :: key in public <==> key in values && DeclaredAs(fields, key, false))
    && (forall key :: key in public ==> public[key] == values[key])
    && (forall key :: key in secrets
                      <==> key in values && DeclaredAs(fields, key, true) && values[key].Str? && values[key] != Str(""))
    && (forall key :: key in secrets ==> values[key] == Str(secrets[key]))
  }

  lemma PartsAreSplit(fields: seq<Field>, values: Values)
    ensures IsSplit(fields, values, PublicPart(fields, values), SecretPart(fields, values))
  {
    forall key
      ensures DeclaredAs(fields, key, false) <==> IsPublic(fields, key)
      ensures DeclaredAs(fields, key, true) <==> IsSecret(fields, key)
    {
      FoundIsDeclared(fields, key, false);
      FoundIsDeclared(fields, key, true);
    }
  }

  method SplitValues(fields: seq<Field>, values: Values) returns (public: Values, secrets: map<string, string>)
    ensures IsSplit(fields, values, public, secrets)
    ensures public == PublicPart(fields, values)
    ensures secrets == SecretPart(fields, values)
    ensures public.Keys !! secrets.Keys
  {
    public, secrets := map[], map[];
    var keys := values.Keys;
    while keys != {}
      invariant keys <= values.Keys
      invariant forall key :: key in public <==> key in values && key !in keys && IsPublic(fields, key)
      invariant forall key :: key in public ==> public[key] == values[key]
      invariant forall key :: key in secrets <==>
                                key in values && key !in keys && IsSecret(fields, key) && values[key].Str?
                                  && values[key].s != ""
      invariant forall key :: key in secrets ==> secrets[key] == values[key].s
      decreases keys
    {
      var name :| name in keys;
      keys := keys - {name};
      var field := FieldNamed(fields, name);
      if field.None? {
        continue;
      }
      if field.value.secret {
        if values[name].Str? && values[name].s != "" {
          secrets := secrets[name := values[name].s];
        }
        continue;
      }
      public := public[name := values[name]];
    }
    SplitIsComplete(fields, values, public, secrets);
  }

  lemma SplitIsComplete(fields: seq<Field>, values: Values, public: Values, secrets: map<string, string>)
    requires forall key :: key in public <==> key in values && IsPublic(fields, key)
    requires forall key :: key in public ==> public[key] == values[key]
    requires forall key :: key in secrets
                           <==> key in values && IsSecret(fields, key) && values[key].Str? && values[key].s != ""
    requires forall key :: key in secrets ==> secrets[key] == values[key].s
    ensures public == PublicPart(fields, values) && secrets == SecretPart(fields, values)
    ensures IsSplit(fields, values, public, secrets)
  {
    assert public == PublicPart(fields, values);
    assert secrets == SecretPart(fields, values);
    PartsAreSplit(fields, values);
  }

  /** The contracts a client may edit by sending back what it read: nothing rests
      on a credential, nor on the key the server adds. */
  ghost predicate Editable(fields: seq<Field>) {
    && WellOrdered(fields)
    && SECRET_REF !in Names(fields)
    && forall i :: 0 <= i < |fields| ==>
                     && SECRET_REF !in fields[i].Sources()
                     && (fields[i].secret ==> fields[i].derived.None?)
                     && (forall j :: 0 <= j < |fields| && fields[j].secret ==> fields[j].name !in fields[i].Sources())
  }

  /** What the server keeps of a connection besides SECRET_REF: coherent, accepted
      public values and no credential. */
  ghost predicate Kept(fields: seq<Field>, public: Values) {
    && Coherent(fields, public, public)
    && Accepts(fields, public, false)
    && PublicPart(fields, public) == public
  }

  lemma UniqueFieldIsFound(fields: seq<Field>, i: nat)
    requires UniqueNames(fields) && i < |fields|
    ensures FieldNamed(fields, fields[i].name) == Some(fields[i])
  {
    var found := FieldNamed(fields, fields[i].name);
    assert fields[i] in fields;
    var j :| 0 <= j < |fields| && fields[j] == found.value;
    assert i == j;
  }

  /** Splitting keeps the other fields and the keys a field may read. */
  lemma PublicPartAgrees(fields: seq<Field>, values: Values, i: nat)
    requires Editable(fields) && values.Keys <= Names(fields) && i < |fields|
    ensures fields[i].secret ==> fields[i].name !in PublicPart(fields, values)
    ensures !fields[i].secret ==> Lookup(PublicPart(fields, values), fields[i].name) == Lookup(values, fields[i].name)
    ensures forall key :: key in fields[i].Sources() ==> Lookup(PublicPart(fields, values), key) == Lookup(values, key)
  {
    UniqueFieldIsFound(fields, i);
    forall key | key in fields[i].Sources()
      ensures Lookup(PublicPart(fields, values), key) == Lookup(values, key)
    {
      if key in Names(fields) {
        var j :| 0 <= j < |fields| && fields[j].name == key;
        UniqueFieldIsFound(fields, j);
      }
    }
  }

  /** Dropping SECRET_REF is not seen by any field. */
  lemma SecretRefIsNotSeen(fields: seq<Field>, a: Values, b: Values, submitted: Values, i: nat)
    requires Editable(fields) && i < |fields|
    requires forall key :: key != SECRET_REF ==> Lookup(a, key) == Lookup(b, key)
    ensures Lookup(a, fields[i].name) == Lookup(b, fields[i].name)
    ensures fields[i].Applies(a) == fields[i].Applies(b)
    ensures Wanted(fields[i], submitted, a) == Wanted(fields[i], submitted, b)
  {
    assert fields[i].name in Names(fields);
    SourcesDecide(fields[i], submitted, a, b);
  }

  /** Accepted values, split, are what the contract wants of themselves. */
  lemma SplitValuesAreCoherent(fields: seq<Field>, submitted: Values, accepted: Values)
    requires Editable(fields) && accepted.Keys <= Names(fields)
    requires forall i :: 0 <= i < |fields|
                         ==> Lookup(accepted, fields[i].name) == Wanted(fields[i], submitted, accepted)
    ensures Coherent(fields, PublicPart(fields, accepted), PublicPart(fields, accepted))
  {
    var public := PublicPart(fields, accepted);
    forall i | 0 <= i < |fields|
      ensures Lookup(public, fields[i].name) == Wanted(fields[i], public, public)
    {
      PublicPartAgrees(fields, accepted, i);
      SourcesDecide(fields[i], submitted, accepted, public);
    }
  }

  lemma SplitValuesAreAccepted(fields: seq<Field>, accepted: Values, requireSecrets: bool)
    requires Editable(fields) && Accepts(fields, accepted, requireSecrets)
    ensures Accepts(fields, PublicPart(fields, accepted), false)
  {
    var public := PublicPart(fields, accepted);
    forall f | f in fields && f.Applies(public)
      ensures if Omitted(f, public) then f.required ==> f.secret else WellFormed(f, public[f.name])
    {
      var i :| 0 <= i < |fields| && fields[i] == f;
      PublicPartAgrees(fields, accepted, i);
      SourcesDecide(f, accepted, accepted, public);
    }
  }

  /** Values that were normalized, accepted and split are kept. */
  lemma AcceptedValuesAreKept(fields: seq<Field>, submitted: Values, requireSecrets: bool)
    requires Editable(fields)
    requires Accepts(fields, Normalized(fields, submitted) - {SECRET_REF}, requireSecrets)
    ensures Kept(fields, PublicPart(fields, Normalized(fields, submitted) - {SECRET_REF}))
  {
    var all := Normalized(fields, submitted);
    var accepted := all - {SECRET_REF};
    NormalizedIsCoherent(fields, submitted);
    forall i | 0 <= i < |fields|
      ensures Lookup(accepted, fields[i].name) == Wanted(fields[i], submitted, accepted)
    {
      SecretRefIsNotSeen(fields, all, accepted, submitted, i);
    }
    SplitValuesAreCoherent(fields, submitted, accepted);
    SplitValuesAreAccepted(fields, accepted, requireSecrets);
  }

  /** Reading kept values and sending them back, with or without the published
      SECRET_REF, changes nothing and submits no credential. */
  lemma KeptValuesRoundTrip(fields: seq<Field>, public: Values, sent: Values)
    requires Editable(fields) && Kept(fields, public)
    requires sent - {SECRET_REF} == public
    ensures Normalized(fields, sent) - {SECRET_REF} == public
    ensures Accepts(fields, public, false)
    ensures PublicPart(fields, public) == public
    ensures SecretPart(fields, public) == map[]
  {
    assert forall key :: key != SECRET_REF ==> Lookup(sent, key) == Lookup(public, key) by {
      assert forall key :: key != SECRET_REF ==> (key in sent <==> key in sent - {SECRET_REF});
    }
    forall i | 0 <= i < |fields|
      ensures Lookup(sent, fields[i].name) == Wanted(fields[i], sent, sent)
    {
      SecretRefIsNotSeen(fields, public, sent, public, i);
      assert Lookup(public, fields[i].name) == Wanted(fields[i], public, public);
    }
    NormalizeIsTheCoherentForm(fields, sent, sent);
    forall key | key in public
      ensures IsPublic(fields, key)
    {
      assert key in PublicPart(fields, public);
    }
  }
}
