/** Small vocabulary shared by the other modules: optional values, the decoded
    JSON that Kubernetes objects and requests carry, and sequences of strings. */
module Basics {

  datatype Option<+T> = None | Some(value: T)

  datatype Result<+T, +E> = Ok(value: T) | Err(error: E)

  /** Durations are counted in nanoseconds, as Go counts them. */
  const SECOND: nat := 1_000_000_000

  /** What Go's `any` holds after decoding JSON or YAML. Every Go number type is
      one real, except that a float which is not finite is kept apart: JSON
      cannot carry it. */
  datatype Value =
    | Null
    | Bool(b: bool)
    | Num(n: real)
    | NotFinite(spelling: string)
    | Str(s: string)
    | List(items: seq<Value>)
    | Obj(fields: Values)

  type Values = map<string, Value>

  /** The value of a key, if the map has the key. */
  function Lookup<V>(m: map<string, V>, key: string): Option<V> {
    if key in m then Some(m[key]) else None
  }

  /** The string under a key, "" when the key is absent or holds something else. */
  function StringAt(m: Values, key: string): string {
    if key in m && m[key].Str? then m[key].s else ""
  }

  /** All elements but the last, and the last: sequences are built from the left. */
  function Init<T>(xs: seq<T>): seq<T>
    requires xs != []
  {
    xs[..|xs| - 1]
  }

  function Last<T>(xs: seq<T>): T
    requires xs != []
  {
    xs[|xs| - 1]
  }

  ghost predicate Distinct<T>(xs: seq<T>) {
    forall i, j :: 0 <= i < j < |xs| ==> xs[i] != xs[j]
  }

  /** Two maps that answer every lookup alike are the same map. */
  lemma SameLookups<V>(a: map<string, V>, b: map<string, V>)
    requires forall key :: Lookup(a, key) == Lookup(b, key)
    ensures a == b
  {
    forall key
      ensures key in a <==> key in b
      ensures key in a && key in b ==> a[key] == b[key]
    {
      assert Lookup(a, key) == Lookup(b, key);
    }
    assert a.Keys == b.Keys;
  }

  /** Deleting a key and putting another commute; deleting what was put where
      there was nothing is as if nothing happened. */
  lemma DeleteAfterPut<V>(m: map<string, V>, key: string, value: V, deleted: string)
    ensures key != deleted ==> m[key := value] - {deleted} == (m - {deleted})[key := value]
    ensures key == deleted && key !in m ==> m[key := value] - {deleted} == m - {deleted} == m
  {
  }

  lemma PutAfterDelete<V>(m: map<string, V>, key: string, value: V)
    ensures (m - {key})[key := value] == m[key := value]
  {
  }

  // --- Text ---

  /** White space as Go's unicode.IsSpace has it. */
  predicate IsSpace(c: char) {
    || '\t' <= c <= '\r' || c == ' ' || c == '\U{0085}' || c == '\U{00A0}' || c == '\U{1680}'
    || '\U{2000}' <= c <= '\U{200A}' || c in {'\U{2028}', '\U{2029}', '\U{202F}', '\U{205F}', '\U{3000}'}
  }

  function TrimLeft(text: string): string {
    if text != "" && IsSpace(text[0]) then TrimLeft(text[1..]) else text
  }

  function TrimRight(text: string): string {
    if text != "" && IsSpace(text[|text| - 1]) then TrimRight(text[..|text| - 1]) else text
  }

  function TrimSpace(text: string): string {
    TrimRight(TrimLeft(text))
  }

  /** The parts with one separator between each two, as strings.Join puts them together. */
  function Join(parts: seq<string>, separator: char): string {
    if parts == [] then ""
    else if |parts| == 1 then parts[0]
    else parts[0] + [separator] + Join(parts[1..], separator)
  }

  /** The text before and after the first separator, as strings.Cut returns them. */
  function Cut(text: string, separator: char): (r: Option<(string, string)>)
    ensures r.None? <==> separator !in text
    ensures r.Some? ==> separator !in r.value.0 && text == r.value.0 + [separator] + r.value.1
  {
    if text == "" then None
    else if text[0] == separator then Some(("", text[1..]))
    else
      var rest := Cut(text[1..], separator);
      assert text == [text[0]] + text[1..];
      if rest.None? then None else Some(([text[0]] + rest.value.0, rest.value.1))
  }

  lemma {:induction false} CutUndoesJoin(before: string, separator: char, after: string)
    requires separator !in before
    ensures Cut(before + [separator] + after, separator) == Some((before, after))
  {
    var text := before + [separator] + after;
    if before == "" {
      assert text[1..] == after;
    } else {
      CutUndoesJoin(before[1..], separator, after);
      assert text[1..] == before[1..] + [separator] + after;
      assert [text[0]] + before[1..] == before;
    }
  }
}
