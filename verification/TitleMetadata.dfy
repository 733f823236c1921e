/** Expanding "Group | Label | widget | options" titles of a parameter schema into
    x-ui-* hints (internal/service/package_schema_service.go, parseTitleMetadata). */
module TitleMetadata {
  import opened Basics
  import opened TitleOptions

  /** How numbers are read: Num, NotFinite for "NaN" and "Inf", or no number. */
  type Numbers = string -> Option<Value>

  function ParseValue(text: string, numbers: Numbers): Value {
    if text == "true" then Bool(true)
    else if text == "false" then Bool(false)
    else if numbers(text).Some? then numbers(text).value
    else Str(text)
  }

  // --- The copy ---

  /** What JSON does to a number: every number comes back as a float. */
  type Rounding = real -> real

  ghost predicate RoundsOnce(round: Rounding) {
    forall x :: round(round(x)) == round(x)
  }

  /** JSON has no spelling for a float that is not finite. */
  predicate Finite(value: Value) {
    match value
    case NotFinite(_) => false
    case List(items) => forall i :: 0 <= i < |items| ==> Finite(items[i])
    case Obj(fields) => forall key :: key in fields ==> Finite(fields[key])
    case _ => true
  }

  function Rounded(value: Value, round: Rounding): Value {
    match value
    case Num(n) => Num(round(n))
    case List(items) => List(seq(|items|, i requires 0 <= i < |items| => Rounded(items[i], round)))
    case Obj(fields) => Obj(map key | key in fields :: Rounded(fields[key], round))
    case _ => value
  }

  /** The copy goes through JSON: numbers are rounded, and what JSON cannot carry
      leaves nothing at all. */
  function DeepCopy(schema: Values, round: Rounding): Values {
    if Finite(Obj(schema)) then Rounded(Obj(schema), round).fields else map[]
  }

  /** JSON gives the value back as it is. */
  predicate Carried(value: Value, round: Rounding) {
    match value
    case NotFinite(_) => false
    case Num(n) => round(n) == n
    case List(items) => forall i :: 0 <= i < |items| ==> Carried(items[i], round)
    case Obj(fields) => forall key :: key in fields ==> Carried(fields[key], round)
    case _ => true
  }

  lemma {:induction false} CarriedIsFixed(value: Value, round: Rounding)
    ensures Carried(value, round) ==> Finite(value)
    ensures Finite(value) ==> (Carried(value, round) <==> Rounded(value, round) == value)
  {
    match value
    case List(items) =>
      forall i | 0 <= i < |items| {
        CarriedIsFixed(items[i], round);
      }
      var rounded := Rounded(value, round).items;
      assert forall i :: 0 <= i < |items| ==> rounded[i] == Rounded(items[i], round);
      assert (forall i :: 0 <= i < |items| ==> rounded[i] == items[i]) <==> rounded == items;
    case Obj(fields) =>
      forall key | key in fields {
        CarriedIsFixed(fields[key], round);
      }
      var rounded := Rounded(value, round).fields;
      assert rounded.Keys == fields.Keys;
      assert (forall key :: key in fields ==> rounded[key] == fields[key]) <==> rounded == fields;
    case _ =>
  }

  lemma {:induction false} RoundedIsCarried(value: Value, round: Rounding)
    requires RoundsOnce(round) && Finite(value)
    ensures Carried(Rounded(value, round), round)
  {
    match value
    case List(items) =>
      forall i | 0 <= i < |items| {
        RoundedIsCarried(items[i], round);
      }
    case Obj(fields) =>
      forall key | key in fields {
        RoundedIsCarried(fields[key], round);
      }
    case _ =>
  }

  // --- One title ---

  /** The text cut on bars into at most n parts, as strings.SplitN cuts it. */
  function Parts(text: string, n: nat): (parts: seq<string>)
    requires n > 0
    ensures 1 <= |parts| <= n
    ensures n > 1 && '|' in text ==> |parts| >= 2
    ensures forall i :: 0 <= i < |parts| && i < n - 1 ==> '|' !in parts[i]
    decreases n
  {
    var cut := Cut(text, '|');
    if n == 1 || cut.None? then [text] else [cut.value.0] + Parts(cut.value.1, n - 1)
  }

  function TrimQuotes(text: string): string {
    if text != "" && text[0] == '"' then TrimQuotes(text[1..])
    else if text != "" && Last(text) == '"' then TrimQuotes(Init(text))
    else text
  }

  /** The hint a key:value option writes, and the value it writes there. */
  function Hint(option: string, numbers: Numbers): Option<(string, Value)> {
    var cut := Cut(option, ':');
    if cut.None? then None
    else
      var value := TrimQuotes(cut.value.1);
      if cut.value.0 == "condition" then
        var equation := Cut(value, '=');
        if equation.None? then None
        else Some(("x-ui-condition",
          Obj(map["field" := Str(equation.value.0), "value" := ParseValue(equation.value.1, numbers)])))
      else Some(("x-ui-" + cut.value.0, ParseValue(value, numbers)))
  }

  function WithOption(property: Values, option: string, numbers: Numbers): Values {
    var hint := Hint(option, numbers);
    if hint.None? then property else property[hint.value.0 := hint.value.1]
  }

  function WithOptions(property: Values, options: seq<string>, numbers: Numbers): Values {
    if options == [] then property
    else WithOption(WithOptions(property, Init(options), numbers), Last(options), numbers)
  }

  /** The options of a segment, balanced or not. */
  function OptionsOf(segment: string): seq<string> {
    if Quotes(segment) % 2 == 0 then Tokens(segment) else Fields(segment)
  }

  predicate HasBars(property: Values) {
    "title" in property && property["title"].Str? && '|' in property["title"].s
  }

  function Part(title: string, i: nat): string {
    var parts := Parts(title, 4);
    if i < |parts| then TrimSpace(parts[i]) else ""
  }

  /** A property whose title has no bar is left as it is. */
  function Expanded(property: Values, numbers: Numbers): Values {
    if !HasBars(property) then property
    else
      var title := property["title"].s;
      var p := if Part(title, 0) != "" then property["x-ui-group" := Str(Part(title, 0))] else property;
      var p := if Part(title, 1) != "" then p["title" := Str(Part(title, 1))] else p - {"title"};
      var p := if Part(title, 2) != "" then p["x-ui-widget" := Str(Part(title, 2))] else p;
      if Part(title, 3) != "" then WithOptions(p, OptionsOf(Part(title, 3)), numbers) else p
  }

  method ExpandTitle(property: Values, numbers: Numbers) returns (p: Values)
    ensures p == Expanded(property, numbers)
  {
    p := property;
    if !HasBars(property) {
      return;
    }
    var title := property["title"].s;
    if Part(title, 0) != "" {
      p := p["x-ui-group" := Str(Part(title, 0))];
    }
    if Part(title, 1) != "" {
      p := p["title" := Str(Part(title, 1))];
    } else {
      p := p - {"title"};
    }
    if Part(title, 2) != "" {
      p := p["x-ui-widget" := Str(Part(title, 2))];
    }
    if Part(title, 3) == "" {
      return;
    }
    var options := SplitOptions(Part(title, 3));
    p := AddOptions(p, options, numbers);
  }

  method AddOptions(property: Values, options: seq<string>, numbers: Numbers) returns (p: Values)
    ensures p == WithOptions(property, options, numbers)
  {
    p := property;
    for i := 0 to |options|
      invariant p == WithOptions(property, options[..i], numbers)
    {
      assert Init(options[..i + 1]) == options[..i];
      var cut := Cut(options[i], ':');
      if cut.None? {
        continue;
      }
      var value := TrimQuotes(cut.value.1);
      if cut.value.0 == "condition" {
        var equation := Cut(value, '=');
        if equation.Some? {
          p := p["x-ui-condition" := Obj(map["field" := Str(equation.value.0),
            "value" := ParseValue(equation.value.1, numbers)])];
        }
      } else {
        p := p["x-ui-" + cut.value.0 := ParseValue(value, numbers)];
      }
    }
    assert options[..|options|] == options;
  }

  // --- The schema ---

  function ExpandedValue(value: Value, numbers: Numbers): Value {
    if value.Obj? then Obj(Expanded(value.fields, numbers)) else value
  }

  function ExpandedAll(properties: Values, numbers: Numbers): Values {
    map name | name in properties :: ExpandedValue(properties[name], numbers)
  }

  function Parsed(schema: Values, numbers: Numbers, round: Rounding): Values {
    var result := DeepCopy(schema, round);
    if "properties" in result && result["properties"].Obj?
    then result["properties" := Obj(ExpandedAll(result["properties"].fields, numbers))]
    else result
  }

  method ParseTitleMetadata(schema: Values, numbers: Numbers, round: Rounding) returns (result: Values)
    ensures result == Parsed(schema, numbers, round)
  {
    result := DeepCopy(schema, round);
    if "properties" !in result || !result["properties"].Obj? {
      return;
    }
    var properties := result["properties"].fields;
    var expanded: Values := map[];
    var names := properties.Keys;
    while names != {}
      invariant names <= properties.Keys
      invariant expanded.Keys == properties.Keys - names
      invariant forall name :: name in expanded ==> expanded[name] == ExpandedValue(properties[name], numbers)
      decreases names
    {
      var name :| name in names;
      names := names - {name};
      if !properties[name].Obj? {
        expanded := expanded[name := properties[name]];
        continue;
      }
      var property := ExpandTitle(properties[name].fields, numbers);
      expanded := expanded[name := Obj(property)];
    }
    assert expanded == ExpandedAll(properties, numbers);
    result := result["properties" := Obj(expanded)];
  }

  // --- Expanding twice ---

  lemma TrimIsAPart(text: string, c: char)
    requires c !in text
    ensures c !in TrimSpace(text)
  {
    TrimLeftIsAPart(text, c);
    TrimRightIsAPart(TrimLeft(text), c);
  }

  lemma {:induction false} TrimLeftIsAPart(text: string, c: char)
    requires c !in text
    ensures c !in TrimLeft(text)
  {
    if text != "" && IsSpace(text[0]) {
      TrimLeftIsAPart(text[1..], c);
    }
  }

  lemma {:induction false} TrimRightIsAPart(text: string, c: char)
    requires c !in text
    ensures c !in TrimRight(text)
  {
    if text != "" && IsSpace(text[|text| - 1]) {
      TrimRightIsAPart(text[..|text| - 1], c);
    }
  }

  lemma {:induction false} OptionsSpareTheTitle(property: Values, options: seq<string>, numbers: Numbers)
    ensures Lookup(WithOptions(property, options, numbers), "title") == Lookup(property, "title")
  {
    if options != [] {
      OptionsSpareTheTitle(property, Init(options), numbers);
      var cut := Cut(Last(options), ':');
      if cut.Some? {
        var key := "x-ui-" + cut.value.0;
        assert key[0] == 'x' && "title"[0] == 't';
      }
    }
  }

  /** An expanded property has a plain title or none. */
  lemma ExpandedHasNoBars(property: Values, numbers: Numbers)
    ensures !HasBars(Expanded(property, numbers))
    ensures Expanded(Expanded(property, numbers), numbers) == Expanded(property, numbers)
  {
    if HasBars(property) {
      var title := property["title"].s;
      var parts := Parts(title, 4);
      TrimIsAPart(parts[1], '|');
      var grouped := if Part(title, 0) != "" then property["x-ui-group" := Str(Part(title, 0))] else property;
      var titled := if Part(title, 1) != "" then grouped["title" := Str(Part(title, 1))] else grouped - {"title"};
      var widget := if Part(title, 2) != "" then titled["x-ui-widget" := Str(Part(title, 2))] else titled;
      assert "x-ui-widget"[0] == 'x' && "title"[0] == 't';
      assert Lookup(widget, "title") == Lookup(titled, "title");
      OptionsSpareTheTitle(widget, OptionsOf(Part(title, 3)), numbers);
      assert Lookup(Expanded(property, numbers), "title") == Lookup(titled, "title");
    }
  }

  /** Option i has the last word on its hint. */
  ghost predicate Survives(options: seq<string>, numbers: Numbers, i: int) {
    && 0 <= i < |options| && Hint(options[i], numbers).Some?
    && forall j :: i < j < |options| && Hint(options[j], numbers).Some?
                   ==> Hint(options[j], numbers).value.0 != Hint(options[i], numbers).value.0
  }

  /** A hint holds what the last option for it says. */
  lemma {:induction false} LastOptionWins(property: Values, options: seq<string>, numbers: Numbers, key: string)
    ensures var after := Lookup(WithOptions(property, options, numbers), key);
            && (forall i :: Survives(options, numbers, i) && Hint(options[i], numbers).value.0 == key
                            ==> after == Some(Hint(options[i], numbers).value.1))
            && ((exists i :: Survives(options, numbers, i) && Hint(options[i], numbers).value.0 == key)
                || after == Lookup(property, key))
  {
    if options != [] {
      var n, init := |options| - 1, Init(options);
      LastOptionWins(property, init, numbers, key);
      var last := Hint(options[n], numbers);
      if last.Some? && last.value.0 == key {
        assert Survives(options, numbers, n);
      } else {
        forall i | 0 <= i < n && Hint(options[i], numbers).Some? && Hint(options[i], numbers).value.0 == key
          ensures init[i] == options[i] && (Survives(init, numbers, i) <==> Survives(options, numbers, i))
        {
          SurvivesTheNext(options, numbers, i);
        }
      }
    }
  }

  /** An option on another hint takes nothing away. */
  lemma SurvivesTheNext(options: seq<string>, numbers: Numbers, i: nat)
    requires i < |options| - 1 && Hint(options[i], numbers).Some?
    requires Hint(Last(options), numbers).Some?
        ==> Hint(Last(options), numbers).value.0 != Hint(options[i], numbers).value.0
    ensures Survives(Init(options), numbers, i) <==> Survives(options, numbers, i)
  {
    var init := Init(options);
    assert forall j :: 0 <= j < |init| ==> init[j] == options[j];
    assert Last(options) == options[|init|];
  }

  /** JSON carries what every surviving option of the title writes. */
  ghost predicate OptionsAreCarried(options: seq<string>, numbers: Numbers, round: Rounding) {
    forall i :: Survives(options, numbers, i) ==> Carried(Hint(options[i], numbers).value.1, round)
  }

  lemma WithOptionsIsCarried(property: Values, options: seq<string>, numbers: Numbers, round: Rounding)
    requires Carried(Obj(property), round)
    ensures Carried(Obj(WithOptions(property, options, numbers)), round) <==> OptionsAreCarried(options, numbers, round)
  {
    var after := WithOptions(property, options, numbers);
    forall i | Survives(options, numbers, i)
      ensures Lookup(after, Hint(options[i], numbers).value.0) == Some(Hint(options[i], numbers).value.1)
    {
      LastOptionWins(property, options, numbers, Hint(options[i], numbers).value.0);
    }
    if OptionsAreCarried(options, numbers, round) {
      forall key | key in after
        ensures Carried(after[key], round)
      {
        LastOptionWins(property, options, numbers, key);
        assert Lookup(after, key) == Some(after[key]);
      }
    }
  }

  /** The options a title gives, none without bars. */
  function TitleOptionsOf(property: Values): seq<string> {
    if HasBars(property) then OptionsOf(Part(property["title"].s, 3)) else []
  }

  lemma CarriedPut(m: Values, key: string, value: Value, round: Rounding)
    requires Carried(Obj(m), round) && Carried(value, round)
    ensures Carried(Obj(m[key := value]), round) && Carried(Obj(m - {key}), round)
  {
  }

  lemma ExpandedIsCarried(property: Values, numbers: Numbers, round: Rounding)
    requires Carried(Obj(property), round)
    ensures Carried(Obj(Expanded(property, numbers)), round)
        <==> OptionsAreCarried(TitleOptionsOf(property), numbers, round)
  {
    if HasBars(property) {
      var title := property["title"].s;
      var grouped := if Part(title, 0) != "" then property["x-ui-group" := Str(Part(title, 0))] else property;
      CarriedPut(property, "x-ui-group", Str(Part(title, 0)), round);
      var titled := if Part(title, 1) != "" then grouped["title" := Str(Part(title, 1))] else grouped - {"title"};
      CarriedPut(grouped, "title", Str(Part(title, 1)), round);
      var widget := if Part(title, 2) != "" then titled["x-ui-widget" := Str(Part(title, 2))] else titled;
      CarriedPut(titled, "x-ui-widget", Str(Part(title, 2)), round);
      if Part(title, 3) == "" {
        assert OptionsOf("") == [];
        assert Expanded(property, numbers) == widget;
      } else {
        WithOptionsIsCarried(widget, OptionsOf(Part(title, 3)), numbers, round);
      }
    }
  }

  lemma RoundingSparesText(m: Values, rounded: Values, key: string, round: Rounding)
    requires Obj(rounded) == Rounded(Obj(m), round)
    ensures key in rounded <==> key in m
    ensures key in m ==> rounded[key] == Rounded(m[key], round)
    ensures key in m ==> (rounded[key].Str? <==> m[key].Str?) && (rounded[key].Obj? <==> m[key].Obj?)
    ensures key in m && m[key].Str? ==> rounded[key] == m[key]
  {
    assert Obj(rounded) == Obj(map k | k in m :: Rounded(m[k], round));
  }

  lemma RoundingSparesTitles(property: Values, rounded: Values, round: Rounding)
    requires Obj(rounded) == Rounded(Obj(property), round)
    ensures HasBars(rounded) == HasBars(property)
    ensures TitleOptionsOf(rounded) == TitleOptionsOf(property)
  {
    RoundingSparesText(property, rounded, "title", round);
  }

  /** Expanding what was expanded, rounded or not, changes nothing. */
  lemma ExpandedOnce(property: Values, numbers: Numbers, round: Rounding)
    ensures Expanded(Rounded(Obj(Expanded(property, numbers)), round).fields, numbers)
            == Rounded(Obj(Expanded(property, numbers)), round).fields
  {
    ExpandedHasNoBars(property, numbers);
    RoundingSparesTitles(Expanded(property, numbers), Rounded(Obj(Expanded(property, numbers)), round).fields, round);
  }

  /** The properties of a schema, if it has any. */
  function PropertiesOf(schema: Values): Values {
    if "properties" in schema && schema["properties"].Obj? then schema["properties"].fields else map[]
  }

  /** A second parse does no more than the copy does. */
  lemma SecondParseIsACopy(schema: Values, numbers: Numbers, round: Rounding)
    ensures var once := Parsed(schema, numbers, round);
            Parsed(once, numbers, round) == DeepCopy(once, round)
  {
    var copy, once := DeepCopy(schema, round), Parsed(schema, numbers, round);
    var again := DeepCopy(once, round);
    if "properties" in again && again["properties"].Obj? {
      var properties := again["properties"].fields;
      assert again["properties"] == Rounded(once["properties"], round);
      assert once["properties"].Obj? && copy["properties"].Obj?;
      forall name | name in properties
        ensures ExpandedValue(properties[name], numbers) == properties[name]
      {
        var before := copy["properties"].fields[name];
        assert properties[name] == Rounded(ExpandedValue(before, numbers), round);
        if before.Obj? {
          ExpandedOnce(before.fields, numbers, round);
        }
      }
      assert ExpandedAll(properties, numbers) == properties;
      assert again["properties" := Obj(properties)] == again;
    }
  }

  /** A property of the copy, expanded, is carried when the options of the title are. */
  lemma PropertyIsCarried(properties: Values, copied: Values, name: string, numbers: Numbers, round: Rounding)
    requires Obj(copied) == Rounded(Obj(properties), round) && Carried(Obj(copied), round) && name in properties
    ensures name in copied && copied[name].Obj? == properties[name].Obj?
    ensures Carried(ExpandedValue(copied[name], numbers), round)
            <==> (properties[name].Obj? ==> OptionsAreCarried(TitleOptionsOf(properties[name].fields), numbers, round))
  {
    RoundingSparesText(properties, copied, name, round);
    if copied[name].Obj? {
      RoundingSparesTitles(properties[name].fields, copied[name].fields, round);
      ExpandedIsCarried(copied[name].fields, numbers, round);
    }
  }

  lemma ParsedIsCarried(schema: Values, numbers: Numbers, round: Rounding)
    requires RoundsOnce(round) && Finite(Obj(schema))
    ensures Carried(Obj(Parsed(schema, numbers, round)), round)
            <==> forall name :: name in PropertiesOf(schema) && PropertiesOf(schema)[name].Obj?
                                ==> OptionsAreCarried(TitleOptionsOf(PropertiesOf(schema)[name].fields), numbers, round)
  {
    var copy := DeepCopy(schema, round);
    RoundedIsCarried(Obj(schema), round);
    RoundingSparesText(schema, copy, "properties", round);
    if "properties" in schema && schema["properties"].Obj? {
      var properties, copied := PropertiesOf(schema), PropertiesOf(copy);
      assert Carried(copy["properties"], round);
      var expanded := ExpandedAll(copied, numbers);
      forall name | name in properties
        ensures name in expanded
        ensures Carried(expanded[name], round)
                <==> (properties[name].Obj?
                  ==> OptionsAreCarried(TitleOptionsOf(properties[name].fields), numbers, round))
      {
        PropertyIsCarried(properties, copied, name, numbers, round);
      }
      assert copied.Keys == properties.Keys;
      OnePutDecides(copy, "properties", Obj(expanded), round);
    }
  }

  lemma OnePutDecides(m: Values, key: string, value: Value, round: Rounding)
    requires Carried(Obj(m), round)
    ensures Carried(Obj(m[key := value]), round) <==> Carried(value, round)
  {
    assert m[key := value][key] == value;
  }

  /** Parsing a parsed schema changes nothing exactly when JSON gives every hint
      back: the last option for a hint in some title must not read as NaN or as an
      infinity, nor as a number a float cannot hold. What breaks is not the
      expansion but the copy before it. */
  lemma ParsingTwiceIsParsingOnce(schema: Values, numbers: Numbers, round: Rounding)
    requires RoundsOnce(round)
    ensures Parsed(Parsed(schema, numbers, round), numbers, round) == Parsed(schema, numbers, round)
            <==> !Finite(Obj(schema))
                 || forall name :: name in PropertiesOf(schema) && PropertiesOf(schema)[name].Obj?
                                   ==> OptionsAreCarried(TitleOptionsOf(PropertiesOf(schema)[name].fields), numbers,
                                     round)
  {
    var once := Parsed(schema, numbers, round);
    SecondParseIsACopy(schema, numbers, round);
    CarriedIsFixed(Obj(once), round);
    if Finite(Obj(schema)) {
      ParsedIsCarried(schema, numbers, round);
      CopyDecides(once, round);
    } else {
      assert once == map[];
      assert Parsed(once, numbers, round) == map[];
    }
  }

  lemma CopyDecides(m: Values, round: Rounding)
    ensures DeepCopy(m, round) == m <==> Carried(Obj(m), round)
  {
    CarriedIsFixed(Obj(m), round);
    if Finite(Obj(m)) {
      assert Rounded(Obj(m), round).Obj?;
    } else {
      assert m != map[];
    }
  }

  // --- It does break ---

  lemma {:induction false} PlainTextIsAnOption(text: string)
    requires '"' !in text && ' ' !in text
    ensures Solid(text, false, false) && Quotes(text) == 0
  {
    if text != "" {
      PlainTextIsAnOption(text[1..]);
    }
  }

  lemma PartsOfTheWitness(option: string)
    requires '|' !in option
    ensures Parts("|||" + option, 4) == ["", "", "", option]
  {
    CutUndoesJoin("", '|', "||" + option);
    CutUndoesJoin("", '|', "|" + option);
    CutUndoesJoin("", '|', option);
    assert "" + ['|'] + ("||" + option) == "|||" + option;
    assert "" + ['|'] + ("|" + option) == "||" + option;
    assert "" + ['|'] + option == "|" + option;
    assert Parts("|" + option, 2) == [""] + Parts(option, 1);
    assert Parts("||" + option, 3) == [""] + Parts("|" + option, 2);
  }

  /** A spelling of a number that JSON does not give back, such as NaN. */
  ghost predicate SpellsALoss(value: string, numbers: Numbers, round: Rounding) {
    && (forall c :: c in value ==> c != '"' && c != '|' && !IsSpace(c))
    && value != "true" && value != "false"
    && numbers(value).Some? && !Carried(numbers(value).value, round)
  }

  ghost predicate ChangesWhenParsedTwice(schema: Values, numbers: Numbers, round: Rounding) {
    Finite(Obj(schema)) && Parsed(Parsed(schema, numbers, round), numbers, round) != Parsed(schema, numbers, round)
  }

  lemma PlainOption(value: string, key: string, numbers: Numbers, round: Rounding)
    requires SpellsALoss(value, numbers, round) && key == "m"
    ensures Hint(key + [':'] + value, numbers) == Some(("x-ui-" + key, numbers(value).value))
  {
    CutUndoesJoin(key, ':', value);
    assert value != "" ==> value[0] in value && value[|value| - 1] in value;
    assert TrimQuotes(value) == value;
    assert |key| != |"condition"|;
  }

  lemma OptionOfTheWitness(value: string, key: string, numbers: Numbers, round: Rounding)
    requires SpellsALoss(value, numbers, round) && key == "m"
    ensures OptionsOf(key + [':'] + value) == [key + [':'] + value]
    ensures TrimSpace(key + [':'] + value) == key + [':'] + value
    ensures '|' !in key + [':'] + value
  {
    var option := key + [':'] + value;
    assert forall c :: c in option ==> c == 'm' || c == ':' || c in value;
    PlainTextIsItsOnlyOption(option);
    UnspacedTextIsTrimmed(option);
  }

  lemma PlainTextIsItsOnlyOption(text: string)
    requires text != "" && '"' !in text && ' ' !in text
    ensures OptionsOf(text) == [text]
  {
    PlainTextIsAnOption(text);
    SplitUndoesJoin([text]);
  }

  lemma UnspacedTextIsTrimmed(text: string)
    requires text != "" && forall c :: c in text ==> !IsSpace(c)
    ensures TrimSpace(text) == text
  {
    assert text[0] in text && text[|text| - 1] in text;
  }

  lemma TitleOfTheWitness(option: string, title: string)
    requires title == "|||" + option && '|' !in option && TrimSpace(option) == option
    ensures '|' in title && Part(title, 3) == option
  {
    PartsOfTheWitness(option);
    assert title[0] == '|';
  }

  /** One option that spells such a number is enough to lose something. */
  lemma ALossyOptionIsNotParsedTwice(value: string, numbers: Numbers, round: Rounding)
    requires RoundsOnce(round) && SpellsALoss(value, numbers, round)
    ensures exists schema: Values :: ChangesWhenParsedTwice(schema, numbers, round)
  {
    var option := "m" + [':'] + value;
    var title := "|||" + option;
    OptionOfTheWitness(value, "m", numbers, round);
    PlainOption(value, "m", numbers, round);
    TitleOfTheWitness(option, title);
    var property: Values := map["title" := Str(title)];
    LossyPropertyIsNotParsedTwice("f", property, option, numbers, round);
  }

  lemma SoleOptionIsNotCarried(option: string, numbers: Numbers, round: Rounding)
    requires Hint(option, numbers).Some? && !Carried(Hint(option, numbers).value.1, round)
    ensures !OptionsAreCarried([option], numbers, round)
  {
    assert Survives([option], numbers, 0);
  }

  lemma LossyPropertyIsNotParsedTwice(name: string, property: Values, option: string, numbers: Numbers, round: Rounding)
    requires RoundsOnce(round) && Finite(Obj(property)) && TitleOptionsOf(property) == [option]
    requires Hint(option, numbers).Some? && !Carried(Hint(option, numbers).value.1, round)
    ensures exists schema: Values :: ChangesWhenParsedTwice(schema, numbers, round)
  {
    SoleOptionIsNotCarried(option, numbers, round);
    LossyPropertiesDecide(map[name := Obj(property)], name, numbers, round);
  }

  lemma LossyPropertiesDecide(properties: Values, name: string, numbers: Numbers, round: Rounding)
    requires RoundsOnce(round) && name in properties && properties[name].Obj?
    requires forall n :: n in properties ==> Finite(properties[n])
    requires !OptionsAreCarried(TitleOptionsOf(properties[name].fields), numbers, round)
    ensures exists schema: Values :: ChangesWhenParsedTwice(schema, numbers, round)
  {
    LossyOptionsDecide(map["properties" := Obj(properties)], properties, name, numbers, round);
  }

  lemma LossyOptionsDecide(schema: Values, properties: Values, name: string, numbers: Numbers, round: Rounding)
    requires RoundsOnce(round) && schema == map["properties" := Obj(properties)] && name in properties
    requires forall n :: n in properties ==> Finite(properties[n])
    requires properties[name].Obj? && !OptionsAreCarried(TitleOptionsOf(properties[name].fields), numbers, round)
    ensures ChangesWhenParsedTwice(schema, numbers, round)
  {
    assert Finite(Obj(properties));
    assert PropertiesOf(schema) == properties;
    ParsingTwiceIsParsingOnce(schema, numbers, round);
  }

  // --- Titles as they are written ---

  /** What a text is read as: a truth value, a number where it is one, else itself. */
  ghost predicate IsReadAs(text: string, value: Value, numbers: Numbers) {
    if text == "true" then value == Bool(true)
    else if text == "false" then value == Bool(false)
    else match numbers(text)
         case Some(number) => value == number
         case None => value == Str(text)
  }

  /** No quote at either end, so that trimming quotes leaves the text as it is. */
  predicate IsUnquoted(text: string) {
    text == "" || (text[0] != '"' && text[|text| - 1] != '"')
  }

  lemma {:induction false} QuotesAreTrimmed(text: string)
    requires IsUnquoted(text)
    ensures TrimQuotes(text) == text && TrimQuotes(text + ['"']) == text && TrimQuotes(['"'] + text + ['"']) == text
  {
    var closed, quoted := text + ['"'], ['"'] + text + ['"'];
    assert Init(closed) == text && Last(closed) == '"';
    assert quoted[1..] == closed;
    assert text == "" ==> closed[1..] == "";
  }

  /** The option is key:value, the value quoted or not. */
  predicate Spells(option: string, key: string, value: string) {
    option == key + [':'] + value || option == key + [':'] + (['"'] + value + ['"'])
  }

  lemma SpelledOptionIsCut(key: string, value: string, option: string)
    requires ':' !in key && IsUnquoted(value) && Spells(option, key, value)
    ensures Cut(option, ':').Some? && Cut(option, ':').value.0 == key && TrimQuotes(Cut(option, ':').value.1) == value
  {
    QuotesAreTrimmed(value);
    if option == key + [':'] + value {
      CutUndoesJoin(key, ':', value);
    } else {
      CutUndoesJoin(key, ':', ['"'] + value + ['"']);
    }
  }

  lemma ParsedValueIsReadAs(text: string, numbers: Numbers)
    ensures IsReadAs(text, ParseValue(text, numbers), numbers)
  {
    assert |"true"| != |"false"|;
  }

  /** An option key:value writes the hint x-ui-key. */
  lemma OptionsAreRead(key: string, value: string, option: string, numbers: Numbers)
    requires ':' !in key && key != "condition" && IsUnquoted(value) && Spells(option, key, value)
    ensures Hint(option, numbers).Some? && Hint(option, numbers).value.0 == "x-ui-" + key
    ensures IsReadAs(value, Hint(option, numbers).value.1, numbers)
  {
    SpelledOptionIsCut(key, value, option);
    ParsedValueIsReadAs(value, numbers);
  }

  /** The value holds a field and what it has to be. */
  ghost predicate IsCondition(v: Value, field: string, text: string, numbers: Numbers) {
    && v.Obj? && v.fields.Keys == {"field", "value"}
    && v.fields["field"] == Str(field) && IsReadAs(text, v.fields["value"], numbers)
  }

  /** An option condition:field=text writes the condition. */
  lemma ConditionsAreRead(field: string, text: string, option: string, numbers: Numbers)
    requires '=' !in field && IsUnquoted(field + ['='] + text) && Spells(option, "condition", field + ['='] + text)
    ensures Hint(option, numbers).Some? && Hint(option, numbers).value.0 == "x-ui-condition"
    ensures IsCondition(Hint(option, numbers).value.1, field, text, numbers)
  {
    SpelledOptionIsCut("condition", field + ['='] + text, option);
    CutUndoesJoin(field, '=', text);
    ParsedValueIsReadAs(text, numbers);
    ConditionOf(field, text, numbers);
  }

  lemma ConditionOf(field: string, text: string, numbers: Numbers)
    ensures IsCondition(Obj(map["field" := Str(field), "value" := ParseValue(text, numbers)]), field, text, numbers)
  {
    ParsedValueIsReadAs(text, numbers);
    assert "field"[0] != "value"[0];
  }

  lemma {:induction false} PartsUndoJoin(parts: seq<string>, n: nat)
    requires 1 <= |parts| <= n
    requires forall i :: 0 <= i < |parts| && i < n - 1 ==> '|' !in parts[i]
    ensures Parts(Join(parts, '|'), n) == parts
    decreases n
  {
    if |parts| > 1 {
      CutUndoesJoin(parts[0], '|', Join(parts[1..], '|'));
      PartsUndoJoin(parts[1..], n - 1);
      assert parts == [parts[0]] + parts[1..];
    } else {
      assert Join(parts, '|') == parts[0];
      assert parts == [parts[0]];
    }
  }

  /** Segment i of a title, without the spaces around it, "" when the title ends before. */
  function Segment(segments: seq<string>, i: nat): string {
    if i < |segments| then TrimSpace(segments[i]) else ""
  }

  /** Some option of the title writes the hint. */
  ghost predicate IsWritten(options: seq<string>, key: string, numbers: Numbers) {
    exists i :: 0 <= i < |options| && Hint(options[i], numbers).Some? && Hint(options[i], numbers).value.0 == key
  }

  /** The hint the option writes holds what it says. */
  predicate IsWrittenBy(out: Values, option: string, numbers: Numbers)
    requires Hint(option, numbers).Some?
  {
    Lookup(out, Hint(option, numbers).value.0) == Some(Hint(option, numbers).value.1)
  }

  /** What a text under a key becomes: the segment, or what was there without one. */
  predicate BecomesSegment(before: Values, after: Values, key: string, segment: string) {
    Lookup(after, key) == if segment != "" then Some(Str(segment)) else Lookup(before, key)
  }

  lemma UnwrittenHintsStay(property: Values, options: seq<string>, numbers: Numbers, key: string)
    requires !IsWritten(options, key, numbers)
    ensures Lookup(WithOptions(property, options, numbers), key) == Lookup(property, key)
  {
    LastOptionWins(property, options, numbers, key);
    if i :| Survives(options, numbers, i) && Hint(options[i], numbers).value.0 == key {
      assert false;
    }
  }

  /** A title "group | label | widget | options", or the first segments of one, is read
      segment by segment: the group and the widget become hints, the label the title or
      nothing, each hint an option writes holds what the last of them says, and all
      other keys stay as they are. */
  lemma TitlesAreRead(property: Values, segments: seq<string>, numbers: Numbers)
    requires 2 <= |segments| <= 4 && forall i :: 0 <= i < |segments| && i < 3 ==> '|' !in segments[i]
    requires Lookup(property, "title") == Some(Str(Join(segments, '|')))
    ensures var out, options := Expanded(property, numbers), OptionsOf(Segment(segments, 3));
            && Lookup(out, "title") == (if Segment(segments, 1) != "" then Some(Str(Segment(segments, 1))) else None)
            && (!IsWritten(options, "x-ui-group", numbers)
                ==> BecomesSegment(property, out, "x-ui-group", Segment(segments, 0)))
            && (!IsWritten(options, "x-ui-widget", numbers)
                ==> BecomesSegment(property, out, "x-ui-widget", Segment(segments, 2)))
            && (forall i :: Survives(options, numbers, i) ==> IsWrittenBy(out, options[i], numbers))
            && (forall key :: key !in {"title", "x-ui-group", "x-ui-widget"} && !IsWritten(options, key, numbers)
                              ==> Lookup(out, key) == Lookup(property, key))
  {
    PartsAreSegments(property, segments);
    var group, caption, widget := Segment(segments, 0), Segment(segments, 1), Segment(segments, 2);
    ExpandedWritesSegments(property, segments, numbers);
    WithSegmentsWrites(property, group, caption, widget);
    OptionsWriteTheirHints(WithSegments(property, group, caption, widget), OptionsOf(Segment(segments, 3)), numbers);
  }

  lemma PartsAreSegments(property: Values, segments: seq<string>)
    requires 2 <= |segments| <= 4 && forall i :: 0 <= i < |segments| && i < 3 ==> '|' !in segments[i]
    requires Lookup(property, "title") == Some(Str(Join(segments, '|')))
    ensures HasBars(property) && forall i :: 0 <= i < 4 ==> Part(property["title"].s, i) == Segment(segments, i)
  {
    var title := Join(segments, '|');
    PartsUndoJoin(segments, 4);
    assert title[|segments[0]|] == '|' by {
      assert title == segments[0] + ['|'] + Join(segments[1..], '|');
    }
  }

  /** The property with its first three segments written, before any option. */
  function WithSegments(property: Values, group: string, caption: string, widget: string): Values {
    var grouped := if group != "" then property["x-ui-group" := Str(group)] else property;
    var titled := if caption != "" then grouped["title" := Str(caption)] else grouped - {"title"};
    if widget != "" then titled["x-ui-widget" := Str(widget)] else titled
  }

  lemma WithSegmentsWrites(property: Values, group: string, caption: string, widget: string)
    ensures var full := WithSegments(property, group, caption, widget);
            && Lookup(full, "title") == (if caption != "" then Some(Str(caption)) else None)
            && BecomesSegment(property, full, "x-ui-group", group)
            && BecomesSegment(property, full, "x-ui-widget", widget)
            && (forall key :: key !in {"title", "x-ui-group", "x-ui-widget"}
                              ==> Lookup(full, key) == Lookup(property, key))
  {
    HintsAreNoTitle();
  }

  lemma NothingHoldsNoOption()
    ensures OptionsOf("") == []
  {
  }

  lemma ExpandedWritesParts(property: Values, title: string, options: seq<string>, numbers: Numbers)
    requires HasBars(property) && title == property["title"].s && options == OptionsOf(Part(title, 3))
    requires Part(title, 3) == "" ==> options == []
    ensures Expanded(property, numbers)
            == WithOptions(WithSegments(property, Part(title, 0), Part(title, 1), Part(title, 2)), options, numbers)
  {
  }

  lemma ExpandedWritesSegments(property: Values, segments: seq<string>, numbers: Numbers)
    requires HasBars(property) && forall i :: 0 <= i < 4 ==> Part(property["title"].s, i) == Segment(segments, i)
    ensures Expanded(property, numbers)
            == WithOptions(WithSegments(property, Segment(segments, 0), Segment(segments, 1), Segment(segments, 2)),
                           OptionsOf(Segment(segments, 3)), numbers)
  {
    NothingHoldsNoOption();
    ExpandedWritesParts(property, property["title"].s, OptionsOf(Part(property["title"].s, 3)), numbers);
  }

  /** What the options leave of a property, and what they write. */
  lemma OptionsWriteTheirHints(full: Values, options: seq<string>, numbers: Numbers)
    ensures var out := WithOptions(full, options, numbers);
            && Lookup(out, "title") == Lookup(full, "title")
            && (forall key :: !IsWritten(options, key, numbers) ==> Lookup(out, key) == Lookup(full, key))
            && (forall i :: Survives(options, numbers, i) ==> IsWrittenBy(out, options[i], numbers))
  {
    OptionsSpareTheTitle(full, options, numbers);
    forall key | !IsWritten(options, key, numbers)
      ensures Lookup(WithOptions(full, options, numbers), key) == Lookup(full, key)
    {
      UnwrittenHintsStay(full, options, numbers, key);
    }
    forall i | Survives(options, numbers, i)
      ensures IsWrittenBy(WithOptions(full, options, numbers), options[i], numbers)
    {
      LastOptionWins(full, options, numbers, Hint(options[i], numbers).value.0);
    }
  }

  lemma HintsAreNoTitle()
    ensures "x-ui-group" != "title" && "x-ui-widget" != "title" && "x-ui-group" != "x-ui-widget"
  {
    assert "x-ui-group"[5] == 'g' && "x-ui-widget"[5] == 'w' && "title"[0] == 't' && "x-ui-group"[0] == 'x';
  }
}
