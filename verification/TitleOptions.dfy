/** Cutting the option segment of a parameter title into options
    (internal/service/package_schema_service.go, splitOptions). */
module TitleOptions {
  import opened Basics

  /** The options completed so far, the one being read, and whether a quote is open. */
  datatype Scan = Scan(options: seq<string>, current: string, inQuotes: bool)

  function Consume(st: Scan, c: char): Scan {
    if c == '"' then st.(current := st.current + [c], inQuotes := !st.inQuotes)
    else if c == ' ' && !st.inQuotes then st.(options := Flushed(st), current := "")
    else st.(current := st.current + [c])
  }

  function Flushed(st: Scan): seq<string> {
    if st.current != "" then st.options + [st.current] else st.options
  }

  function Run(st: Scan, text: string): Scan
    decreases text
  {
    if text == "" then st else Run(Consume(st, text[0]), text[1..])
  }

  const START := Scan([], "", false)

  /** The segment cut on spaces outside quotes. */
  function Tokens(segment: string): seq<string> {
    Flushed(Run(START, segment))
  }

  function Quotes(text: string): nat {
    if text == "" then 0 else (if text[0] == '"' then 1 else 0) + Quotes(text[1..])
  }

  /** The segment cut on white space, quotes or not, as strings.Fields does. */
  function Fields(text: string): (fields: seq<string>)
    ensures text != "" && !IsSpace(Last(text)) ==> fields != []
  {
    if text == "" then []
    else if IsSpace(Last(text)) then Fields(Init(text))
    else if Init(text) == "" || IsSpace(Last(Init(text))) then Fields(Init(text)) + [[Last(text)]]
    else
      var rest := Fields(Init(text));
      Init(rest) + [Last(rest) + [Last(text)]]
  }

  method SplitOptions(segment: string) returns (options: seq<string>)
    ensures options == if Quotes(segment) % 2 == 0 then Tokens(segment) else Fields(segment)
  {
    if Quotes(segment) % 2 != 0 {
      return Fields(segment);
    }
    options := [];
    var current := "";
    var inQuotes := false;
    assert segment[0..] == segment;
    for i := 0 to |segment|
      invariant Run(Scan(options, current, inQuotes), segment[i..]) == Run(START, segment)
    {
      var r := segment[i];
      assert segment[i..][0] == r && segment[i..][1..] == segment[i + 1..];
      if r == '"' {
        inQuotes := !inQuotes;
        current := current + [r];
      } else if r == ' ' && !inQuotes {
        if current != "" {
          options := options + [current];
          current := "";
        }
      } else {
        current := current + [r];
      }
    }
    if current != "" {
      options := options + [current];
    }
  }

  // --- Well-formed options ---

  /** Reading the text from inside quotes or not, spaces only occur inside, and it
      ends inside or not as said. */
  predicate Solid(text: string, from: bool, to: bool) {
    if text == "" then from == to
    else if text[0] == '"' then Solid(text[1..], !from, to)
    else (text[0] == ' ' ==> from) && Solid(text[1..], from, to)
  }

  /** A non-empty option with balanced quotes and spaces only inside them. */
  predicate IsOption(text: string) {
    text != "" && Solid(text, false, false)
  }

  ghost predicate AreOptions(options: seq<string>) {
    forall i :: 0 <= i < |options| ==> IsOption(options[i])
  }

  function Concat(options: seq<string>): string {
    if options == [] then "" else Concat(Init(options)) + Last(options)
  }

  /** The text without its spaces outside quotes. */
  function Unspaced(text: string, inQuotes: bool): string {
    if text == "" then ""
    else if text[0] == '"' then "\"" + Unspaced(text[1..], !inQuotes)
    else if text[0] == ' ' && !inQuotes then Unspaced(text[1..], inQuotes)
    else [text[0]] + Unspaced(text[1..], inQuotes)
  }

  lemma {:induction false} RunOfSum(st: Scan, a: string, b: string)
    ensures Run(st, a + b) == Run(Run(st, a), b)
    decreases a
  {
    if a == "" {
      assert a + b == b;
    } else {
      assert (a + b)[1..] == a[1..] + b;
      RunOfSum(Consume(st, a[0]), a[1..], b);
    }
  }

  /** A solid text is read into the current option whole. */
  lemma {:induction false} SolidIsRead(st: Scan, text: string, to: bool)
    requires Solid(text, st.inQuotes, to)
    ensures Run(st, text) == Scan(st.options, st.current + text, to)
    decreases text
  {
    if text == "" {
      assert st.current + text == st.current;
    } else {
      SolidIsRead(Consume(st, text[0]), text[1..], to);
      assert st.current + [text[0]] + text[1..] == st.current + text by {
        assert [text[0]] + text[1..] == text;
      }
    }
  }

  lemma {:induction false} JoinIsRead(options: seq<string>, done: seq<string>)
    requires AreOptions(options)
    ensures !Run(Scan(done, "", false), Join(options, ' ')).inQuotes
    ensures Flushed(Run(Scan(done, "", false), Join(options, ' '))) == done + options
    decreases options
  {
    var st := Scan(done, "", false);
    if options != [] {
      var first := options[0];
      SolidIsRead(st, first, false);
      assert st.current + first == first;
      if |options| == 1 {
        assert options == [first];
      } else {
        RunOfSum(st, first, " " + Join(options[1..], ' '));
        assert first + " " + Join(options[1..], ' ') == first + (" " + Join(options[1..], ' '));
        var spaced := " " + Join(options[1..], ' ');
        assert spaced[0] == ' ' && spaced[1..] == Join(options[1..], ' ');
        assert Run(Run(st, first), spaced) == Run(Scan(done + [first], "", false), Join(options[1..], ' '));
        JoinIsRead(options[1..], done + [first]);
        assert done + [first] + options[1..] == done + options;
      }
    }
  }

  lemma {:induction false} QuotesDecideTheEnd(st: Scan, text: string)
    ensures Run(st, text).inQuotes == (st.inQuotes != (Quotes(text) % 2 == 1))
    decreases text
  {
    if text != "" {
      QuotesDecideTheEnd(Consume(st, text[0]), text[1..]);
    }
  }

  /** Splitting undoes joining: options joined by one space are found again. */
  lemma SplitUndoesJoin(options: seq<string>)
    requires AreOptions(options)
    ensures Quotes(Join(options, ' ')) % 2 == 0
    ensures Tokens(Join(options, ' ')) == options
  {
    JoinIsRead(options, []);
    QuotesDecideTheEnd(START, Join(options, ' '));
    assert [] + options == options;
  }

  // --- What splitting yields on any balanced segment ---

  lemma {:induction false} SolidOfSum(a: string, b: string, from: bool, mid: bool, to: bool)
    requires Solid(a, from, mid) && Solid(b, mid, to)
    ensures Solid(a + b, from, to)
  {
    if a == "" {
      assert a + b == b;
    } else {
      assert (a + b)[1..] == a[1..] + b;
      SolidOfSum(a[1..], b, if a[0] == '"' then !from else from, mid, to);
    }
  }

  lemma {:induction false} ScanKeepsOptions(st: Scan, text: string)
    requires AreOptions(st.options) && Solid(st.current, false, st.inQuotes)
    ensures AreOptions(Run(st, text).options) && Solid(Run(st, text).current, false, Run(st, text).inQuotes)
    decreases text
  {
    if text != "" {
      var c := text[0];
      if c != ' ' || st.inQuotes {
        var more := [c];
        assert more[1..] == "";
        SolidOfSum(st.current, more, false, st.inQuotes, if c == '"' then !st.inQuotes else st.inQuotes);
      }
      ScanKeepsOptions(Consume(st, c), text[1..]);
    }
  }

  lemma ConcatOfSum(options: seq<string>, last: string)
    ensures Concat(options + [last]) == Concat(options) + last
  {
    assert Init(options + [last]) == options;
  }

  /** The text read so far, in the options completed and the one being read. */
  function ReadSoFar(st: Scan): string {
    Concat(st.options) + st.current
  }

  lemma FlushKeepsText(st: Scan)
    ensures Concat(Flushed(st)) == ReadSoFar(st)
  {
    ConcatOfSum(st.options, st.current);
    assert Concat(st.options) + "" == Concat(st.options);
  }

  lemma ConsumeKeepsText(st: Scan, c: char)
    ensures ReadSoFar(Consume(st, c)) == if c == ' ' && !st.inQuotes then ReadSoFar(st) else ReadSoFar(st) + [c]
  {
    if c == ' ' && !st.inQuotes {
      FlushKeepsText(st);
      assert Concat(Flushed(st)) + "" == Concat(Flushed(st));
    } else {
      assert Concat(st.options) + (st.current + [c]) == ReadSoFar(st) + [c];
    }
  }

  lemma {:induction false} ScanKeepsText(st: Scan, text: string)
    ensures ReadSoFar(Run(st, text)) == ReadSoFar(st) + Unspaced(text, st.inQuotes)
    decreases text
  {
    if text == "" {
      assert ReadSoFar(st) + "" == ReadSoFar(st);
    } else {
      var c, next := text[0], Consume(st, text[0]);
      var rest := Unspaced(text[1..], next.inQuotes);
      ScanKeepsText(next, text[1..]);
      ConsumeKeepsText(st, c);
      if c == ' ' && !st.inQuotes {
        assert ReadSoFar(next) == ReadSoFar(st);
      } else {
        assert ReadSoFar(next) + rest == ReadSoFar(st) + ([c] + rest);
      }
    }
  }

  /** Every balanced segment yields options, which put together are the segment
      without its spaces outside quotes: nothing is dropped, nothing is added. */
  lemma SplitKeepsEverything(segment: string)
    requires Quotes(segment) % 2 == 0
    ensures AreOptions(Tokens(segment))
    ensures Concat(Tokens(segment)) == Unspaced(segment, false)
  {
    ScanKeepsOptions(START, segment);
    QuotesDecideTheEnd(START, segment);
    ScanKeepsText(START, segment);
    FlushKeepsText(Run(START, segment));
    assert ReadSoFar(START) + Unspaced(segment, false) == Unspaced(segment, false);
  }

  /** Joining what was split and splitting again gives the same options. */
  lemma SplitIsStable(segment: string)
    requires Quotes(segment) % 2 == 0
    ensures Tokens(Join(Tokens(segment), ' ')) == Tokens(segment)
  {
    SplitKeepsEverything(segment);
    SplitUndoesJoin(Tokens(segment));
  }

  // --- The fallback for an unbalanced quote ---

  function Bare(text: string): string {
    if text == "" then ""
    else if IsSpace(Last(text)) then Bare(Init(text)) else Bare(Init(text)) + [Last(text)]
  }

  ghost predicate IsField(text: string) {
    text != "" && forall j :: 0 <= j < |text| ==> !IsSpace(text[j])
  }

  /** Cutting on white space yields fields without any, and loses nothing else, so no
      option after the stray quote is swallowed. */
  lemma {:induction false} FieldsKeepTheRest(text: string)
    ensures Concat(Fields(text)) == Bare(text)
    ensures forall field :: field in Fields(text) ==> IsField(field)
  {
    if text != "" {
      var init, c := Init(text), Last(text);
      FieldsKeepTheRest(init);
      var rest := Fields(init);
      if !IsSpace(c) {
        if init == "" || IsSpace(Last(init)) {
          ConcatOfSum(rest, [c]);
        } else {
          ConcatOfSum(Init(rest), Last(rest) + [c]);
          assert Concat(Init(rest)) + (Last(rest) + [c]) == Concat(rest) + [c];
          LongerField(rest, c);
        }
      }
    }
  }

  lemma LongerField(fields: seq<string>, c: char)
    requires fields != [] && !IsSpace(c) && forall field :: field in fields ==> IsField(field)
    ensures forall field :: field in Init(fields) + [Last(fields) + [c]] ==> IsField(field)
  {
    assert Last(fields) in fields && IsField(Last(fields) + [c]);
    assert forall field :: field in Init(fields) ==> field in fields;
  }
}
