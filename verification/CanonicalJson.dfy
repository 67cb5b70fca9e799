/**
Canonical text of JSON values (src/canonical-json.js:10-33): objects are written with their keys sorted. Numbers are
carried by the text that serialising them gives.
*/
module CanonicalJson {
  import opened Wrappers

  datatype Json =
    | Null
    | Bool(truth: bool)
    | Number(text: string)
    | Text(chars: string)
    | Array(items: seq<Json>)
    | Object(entries: seq<Entry>)

  datatype Entry = Entry(key: string, value: Json)

  // A value with the order of its keys forgotten.
  datatype Meaning =
    | MNull
    | MBool(truth: bool)
    | MNumber(text: string)
    | MText(chars: string)
    | MArray(items: seq<Meaning>)
    | MObject(fields: map<string, Meaning>)

  const DEFAULT_MAX_DEPTH := 512

  /** Strings (sections 5 and 7 of RFC 8259). */

  predicate Control(c: char) {
    (c as int) < 0x20
  }

  const HEX: string := "0123456789abcdef"

  function Escape(c: char): string {
    if c == '"' then "\\\""
    else if c == '\\' then "\\\\"
    else if c == 8 as char then "\\b"
    else if c == '\t' then "\\t"
    else if c == '\n' then "\\n"
    else if c == 12 as char then "\\f"
    else if c == '\r' then "\\r"
    else if Control(c) then "\\u00" + [HEX[(c as int) / 16], HEX[(c as int) % 16]]
    else [c]
  }

  function EscapeAll(s: string): string {
    if s == "" then "" else Escape(s[0]) + EscapeAll(s[1..])
  }

  function Quote(s: string): string {
    "\"" + EscapeAll(s) + "\""
  }

  /** Keys in order. */

  predicate Less(a: string, b: string) {
    if b == "" then false
    else if a == "" then true
    else if a[0] != b[0] then a[0] < b[0]
    else Less(a[1..], b[1..])
  }

  predicate Sorted(ks: seq<string>) {
    forall i, j :: 0 <= i < j < |ks| ==> Less(ks[i], ks[j])
  }

  function Insert(k: string, ks: seq<string>): seq<string> {
    if ks == [] || Less(k, ks[0]) then [k] + ks else [ks[0]] + Insert(k, ks[1..])
  }

  function Sort(ks: seq<string>): seq<string> {
    if ks == [] then [] else Insert(ks[0], Sort(ks[1..]))
  }

  function KeysOf(entries: seq<Entry>): seq<string> {
    seq(|entries|, i requires 0 <= i < |entries| => entries[i].key)
  }

  function IndexOf(entries: seq<Entry>, k: string): (i: nat)
    requires k in KeysOf(entries)
    ensures i < |entries| && entries[i].key == k
  {
    if entries[0].key == k then 0
    else
      assert k in KeysOf(entries[1..]) by {
        var j :| 0 <= j < |entries| && KeysOf(entries)[j] == k;
        assert KeysOf(entries[1..])[j - 1] == k;
      }
      1 + IndexOf(entries[1..], k)
  }

  /** Writing. */

  predicate NumberChar(c: char) {
    '0' <= c <= '9' || c in {'+', '-', '.', 'e', 'E'}
  }

  predicate NumberText(s: string) {
    s != "" && ('0' <= s[0] <= '9' || s[0] == '-') && forall i :: 0 <= i < |s| ==> NumberChar(s[i])
  }

  // What a JSON value is: numbers in their serialised form, and no key twice in one object.
  predicate WellFormed(t: Json)
    decreases t
  {
    match t
    case Number(text) => NumberText(text)
    case Array(items) => forall i :: 0 <= i < |items| ==> WellFormed(items[i])
    case Object(entries) =>
      && (forall i, j :: 0 <= i < j < |entries| ==> entries[i].key != entries[j].key)
      && (forall i :: 0 <= i < |entries| ==> WellFormed(entries[i].value))
    case _ => true
  }

  predicate WithinDepth(t: Json, room: int)
    decreases t
  {
    room >= 0 &&
    match t
    case Array(items) => forall i :: 0 <= i < |items| ==> WithinDepth(items[i], room - 1)
    case Object(entries) => forall i :: 0 <= i < |entries| ==> WithinDepth(entries[i].value, room - 1)
    case _ => true
  }

  function Commas(parts: seq<string>): string {
    if parts == [] then "" else if |parts| == 1 then parts[0] else parts[0] + "," + Commas(parts[1..])
  }

  function Encode(t: Json): string
    decreases t, 1
  {
    match t
    case Null => "null"
    case Bool(b) => if b then "true" else "false"
    case Number(text) => text
    case Text(chars) => Quote(chars)
    case Array(items) => "[" + Commas(seq(|items|, i requires 0 <= i < |items| => Encode(items[i]))) + "]"
    case Object(entries) => "{" + Commas(Fields(t, SortedKeys(t))) + "}"
  }

  function SortedKeys(t: Json): (ks: seq<string>)
    requires t.Object?
    ensures forall k :: k in ks <==> k in KeysOf(t.entries)
  {
    SortKeeps(KeysOf(t.entries));
    Sort(KeysOf(t.entries))
  }

  function ValueFor(t: Json, k: string): Json
    requires t.Object? && k in KeysOf(t.entries)
  {
    t.entries[IndexOf(t.entries, k)].value
  }

  function Fields(t: Json, ks: seq<string>): seq<string>
    requires t.Object? && forall k <- ks :: k in KeysOf(t.entries)
    decreases t, 0
  {
    seq(|ks|, i requires 0 <= i < |ks| => Quote(ks[i]) + ":" + Encode(t.entries[IndexOf(t.entries, ks[i])].value))
  }

  // None: the value lies too deep.
  function CanonicalText(t: Json, maxDepth: int := DEFAULT_MAX_DEPTH): Option<string> {
    if WithinDepth(t, maxDepth) then Some(Encode(t)) else None
  }

  function MeaningOf(t: Json): Meaning
    decreases t
  {
    match t
    case Null => MNull
    case Bool(b) => MBool(b)
    case Number(text) => MNumber(text)
    case Text(chars) => MText(chars)
    case Array(items) => MArray(seq(|items|, i requires 0 <= i < |items| => MeaningOf(items[i])))
    case Object(entries) => MObject(map k | k in KeysOf(entries) :: MeaningOf(t.entries[IndexOf(t.entries, k)].value))
  }

  /** What the text of a string and the depth of a value are. */

  // Quotes, backslashes and the five short escapes; any other control character by its number; the rest as it is.
  ghost predicate EscapesAs(c: char, text: string) {
    var n := c as int;
    if c == '"' || c == '\\' then text == ['\\', c]
    else if n == 8 || n == 9 || n == 10 || n == 12 || n == 13 then
      text == ['\\', if n == 8 then 'b' else if n == 9 then 't' else if n == 10 then 'n' else if n == 12 then 'f' else 'r']
    else if n < 32 then
      |text| == 6 && text[..4] == "\\u00" && text[4] == (if n < 16 then '0' else '1') && text[5] == HEX[n % 16]
    else text == [c]
  }

  ghost predicate EscapedFrom(s: string, text: string) {
    if s == "" then text == ""
    else exists n :: 0 < n <= |text| && EscapesAs(s[0], text[..n]) && EscapedFrom(s[1..], text[n..])
  }

  lemma EscapeExact(c: char)
    ensures EscapesAs(c, Escape(c)) && Escape(c) != ""
  {
  }

  lemma {:induction false} QuoteExact(s: string)
    ensures EscapedFrom(s, EscapeAll(s)) && Quote(s) == ['"'] + EscapeAll(s) + ['"']
  {
    if s != "" {
      QuoteExact(s[1..]);
      EscapeExact(s[0]);
      hide Escape, EscapesAs;
      var n := |Escape(s[0])|;
      assert EscapeAll(s)[..n] == Escape(s[0]) && EscapeAll(s)[n..] == EscapeAll(s[1..]);
    }
  }

  // How far below it something lies: nothing below a scalar or an empty array or object.
  function Depth(t: Json): nat
    decreases t, 0
  {
    match t
    case Array(items) => DepthOfItems(items)
    case Object(entries) => DepthOfEntries(entries)
    case _ => 0
  }

  function DepthOfItems(items: seq<Json>): nat
    decreases items
  {
    if items == [] then 0
    else
      var first, rest := 1 + Depth(items[0]), DepthOfItems(items[1..]);
      if first < rest then rest else first
  }

  function DepthOfEntries(entries: seq<Entry>): nat
    decreases entries
  {
    if entries == [] then 0
    else
      var first, rest := 1 + Depth(entries[0].value), DepthOfEntries(entries[1..]);
      if first < rest then rest else first
  }

  lemma {:induction false} DepthExact(t: Json, room: int)
    ensures WithinDepth(t, room) <==> Depth(t) <= room
    decreases t, 0
  {
    match t
    case Array(items) => ItemsDepth(items, room);
    case Object(entries) => EntriesDepth(entries, room);
    case _ =>
  }

  lemma {:induction false} ItemsDepth(items: seq<Json>, room: int)
    ensures room >= 0 && (forall i :: 0 <= i < |items| ==> WithinDepth(items[i], room - 1)) <==> DepthOfItems(items) <= room
    decreases items
  {
    if items != [] {
      DepthExact(items[0], room - 1);
      ItemsDepth(items[1..], room);
      assert forall i :: 0 < i < |items| ==> items[i] == items[1..][i - 1];
    }
  }

  lemma {:induction false} EntriesDepth(entries: seq<Entry>, room: int)
    ensures room >= 0 && (forall i :: 0 <= i < |entries| ==> WithinDepth(entries[i].value, room - 1))
      <==> DepthOfEntries(entries) <= room
    decreases entries
  {
    if entries != [] {
      DepthExact(entries[0].value, room - 1);
      EntriesDepth(entries[1..], room);
      assert forall i :: 0 < i < |entries| ==> entries[i] == entries[1..][i - 1];
    }
  }

  /** A value has a text exactly when nothing lies deeper than the bound. */
  lemma TextWithinDepth(t: Json, maxDepth: int := DEFAULT_MAX_DEPTH)
    ensures CanonicalText(t, maxDepth) == if Depth(t) <= maxDepth then Some(Encode(t)) else None
  {
    DepthExact(t, maxDepth);
  }

  /** Sorting. */

  lemma {:induction false} InsertKeeps(k: string, ks: seq<string>)
    ensures forall x :: x in Insert(k, ks) <==> x == k || x in ks
    ensures |Insert(k, ks)| == |ks| + 1
  {
    if ks != [] && !Less(k, ks[0]) {
      InsertKeeps(k, ks[1..]);
      assert ks == [ks[0]] + ks[1..];
    }
  }

  lemma {:induction false} SortKeeps(ks: seq<string>)
    ensures forall x :: x in Sort(ks) <==> x in ks
    ensures |Sort(ks)| == |ks|
  {
    if ks != [] {
      SortKeeps(ks[1..]);
      InsertKeeps(ks[0], Sort(ks[1..]));
      assert ks == [ks[0]] + ks[1..];
    }
  }

  lemma {:induction false} LessIsTotal(a: string, b: string)
    ensures Less(a, b) || Less(b, a) || a == b
    ensures !(Less(a, b) && Less(b, a)) && (a == b ==> !Less(a, b))
  {
    if a != "" && b != "" && a[0] == b[0] {
      LessIsTotal(a[1..], b[1..]);
      assert a == [a[0]] + a[1..] && b == [b[0]] + b[1..];
    }
  }

  lemma {:induction false} LessIsTransitive(a: string, b: string, c: string)
    requires Less(a, b) && Less(b, c)
    ensures Less(a, c)
  {
    if a != "" && a[0] == b[0] && b[0] == c[0] {
      LessIsTransitive(a[1..], b[1..], c[1..]);
    }
  }

  lemma {:induction false} InsertSorts(k: string, ks: seq<string>)
    requires Sorted(ks) && k !in ks
    ensures Sorted(Insert(k, ks))
  {
    if ks != [] {
      LessIsTotal(k, ks[0]);
      if Less(k, ks[0]) {
        forall j | 0 <= j < |ks|
          ensures Less(k, ks[j])
        {
          if j > 0 {
            LessIsTransitive(k, ks[0], ks[j]);
          }
        }
      } else {
        assert ks[0] in ks;
        InsertSorts(k, ks[1..]);
        InsertKeeps(k, ks[1..]);
        var rest := Insert(k, ks[1..]);
        forall j | 0 <= j < |rest|
          ensures Less(ks[0], rest[j])
        {
          assert rest[j] in rest;
        }
      }
    }
  }

  lemma {:induction false} SortSorts(ks: seq<string>)
    requires forall i, j :: 0 <= i < j < |ks| ==> ks[i] != ks[j]
    ensures Sorted(Sort(ks))
  {
    if ks != [] {
      SortSorts(ks[1..]);
      SortKeeps(ks[1..]);
      InsertSorts(ks[0], Sort(ks[1..]));
    }
  }

  /** Two sorted sequences of the same keys are the same sequence. */
  lemma {:induction false} SortedIsUnique(a: seq<string>, b: seq<string>)
    requires Sorted(a) && Sorted(b) && forall k :: k in a <==> k in b
    ensures a == b
    decreases |a|
  {
    assert |b| > 0 ==> b[0] in b;
    if a != [] {
      assert a[0] in a && a[0] in b && b[0] in a;
      var i :| 0 <= i < |b| && b[i] == a[0];
      var j :| 0 <= j < |a| && a[j] == b[0];
      LessIsTotal(a[0], b[0]);
      FirstIsLeast(b, i);
      FirstIsLeast(a, j);
      forall k
        ensures k in a[1..] <==> k in b[1..]
      {
        LessIsTotal(a[0], a[0]);
        RestOf(a, k);
        RestOf(b, k);
      }
      SortedIsUnique(a[1..], b[1..]);
      assert a == [a[0]] + a[1..] && b == [b[0]] + b[1..];
    }
  }

  lemma FirstIsLeast(ks: seq<string>, i: nat)
    requires Sorted(ks) && i < |ks|
    ensures ks[i] == ks[0] || Less(ks[0], ks[i])
  {
  }

  lemma RestOf(a: seq<string>, k: string)
    requires a != [] && Sorted(a)
    ensures k in a[1..] <==> k in a && k != a[0]
  {
    LessIsTotal(a[0], a[0]);
    assert a == [a[0]] + a[1..];
  }
}

/** Reading canonical text back: the text decides what was written, up to the order of keys. */
module CanonicalDecoding {
  import opened CanonicalJson
  import opened Wrappers

  /** The reader. */

  function HexValue(c: char): Option<nat> {
    if '0' <= c <= '9' then Some((c as int) - ('0' as int))
    else if 'a' <= c <= 'f' then Some((c as int) - ('a' as int) + 10)
    else None
  }

  // One character of a string, and what follows it.
  function ReadChar(s: string): (r: Option<(char, string)>)
    requires s != ""
    ensures r.Some? ==> |r.value.1| < |s|
  {
    if s[0] != '\\' then Some((s[0], s[1..]))
    else if |s| < 2 then None
    else if s[1] == '"' || s[1] == '\\' then Some((s[1], s[2..]))
    else if s[1] == 'b' then Some((8 as char, s[2..]))
    else if s[1] == 't' then Some(('\t', s[2..]))
    else if s[1] == 'n' then Some(('\n', s[2..]))
    else if s[1] == 'f' then Some((12 as char, s[2..]))
    else if s[1] == 'r' then Some(('\r', s[2..]))
    else if |s| < 6 || s[1] != 'u' || s[2] != '0' || s[3] != '0' then None
    else if HexValue(s[4]).None? || HexValue(s[5]).None? || HexValue(s[4]).value > 1 then None
    else Some(((HexValue(s[4]).value * 16 + HexValue(s[5]).value) as char, s[6..]))
  }

  // Up to the closing quote.
  function ReadChars(s: string): (r: Option<(string, string)>)
    ensures r.Some? ==> |r.value.1| < |s|
    decreases |s|
  {
    if s == "" then None
    else if s[0] == '"' then Some(("", s[1..]))
    else
      var first := ReadChar(s);
      if first.None? then None
      else
        var rest := ReadChars(first.value.1);
        if rest.None? then None else Some(([first.value.0] + rest.value.0, rest.value.1))
  }

  function NumberPart(s: string): string {
    if s == "" || !NumberChar(s[0]) then "" else [s[0]] + NumberPart(s[1..])
  }

  predicate Begins(s: string, word: string) {
    |word| <= |s| && s[..|word|] == word
  }

  function ReadWord(s: string, word: string, m: Meaning): Option<(Meaning, string)> {
    if Begins(s, word) then Some((m, s[|word|..])) else None
  }

  function ReadNumber(s: string): (r: Option<(Meaning, string)>)
    ensures r.Some? ==> |r.value.1| < |s|
  {
    NumberPartFits(s);
    if NumberPart(s) == "" then None else Some((MNumber(NumberPart(s)), s[|NumberPart(s)|..]))
  }

  function ReadValue(s: string): (r: Option<(Meaning, string)>)
    ensures r.Some? ==> |r.value.1| < |s|
    decreases |s|, 1
  {
    if s == "" then None
    else if s[0] == '"' then
      var r := ReadChars(s[1..]);
      if r.None? then None else Some((MText(r.value.0), r.value.1))
    else if s[0] == '[' then
      if |s| > 1 && s[1] == ']' then Some((MArray([]), s[2..]))
      else
        var r := ReadItems(s[1..]);
        if r.None? then None else Some((MArray(r.value.0), r.value.1))
    else if s[0] == '{' then
      if |s| > 1 && s[1] == '}' then Some((MObject(map[]), s[2..]))
      else
        var r := ReadFields(s[1..]);
        if r.None? then None else Some((MObject(r.value.0), r.value.1))
    else if s[0] == 'n' then ReadWord(s, "null", MNull)
    else if s[0] == 't' then ReadWord(s, "true", MBool(true))
    else if s[0] == 'f' then ReadWord(s, "false", MBool(false))
    else ReadNumber(s)
  }

  function ReadItems(s: string): (r: Option<(seq<Meaning>, string)>)
    ensures r.Some? ==> |r.value.1| < |s|
    decreases |s|, 2
  {
    var first := ReadValue(s);
    if first.None? || first.value.1 == "" then None
    else if first.value.1[0] == ']' then Some(([first.value.0], first.value.1[1..]))
    else if first.value.1[0] != ',' then None
    else
      var rest := ReadItems(first.value.1[1..]);
      if rest.None? then None else Some(([first.value.0] + rest.value.0, rest.value.1))
  }

  function ReadFields(s: string): (r: Option<(map<string, Meaning>, string)>)
    ensures r.Some? ==> |r.value.1| < |s|
    decreases |s|, 2
  {
    if s == "" || s[0] != '"' then None
    else
      var key := ReadChars(s[1..]);
      if key.None? || key.value.1 == "" || key.value.1[0] != ':' then None
      else
        var value := ReadValue(key.value.1[1..]);
        if value.None? || value.value.1 == "" then None
        else if value.value.1[0] == '}' then Some((map[key.value.0 := value.value.0], value.value.1[1..]))
        else if value.value.1[0] != ',' then None
        else
          var rest := ReadFields(value.value.1[1..]);
          if rest.None? then None
          else Some((rest.value.0[key.value.0 := value.value.0], rest.value.1))
  }

  lemma {:induction false} NumberPartFits(s: string)
    ensures |NumberPart(s)| <= |s|
  {
    if s != "" && NumberChar(s[0]) {
      NumberPartFits(s[1..]);
    }
  }

  /** Reading undoes writing. */

  lemma ReadsEscaped(c: char, rest: string)
    ensures Escape(c) != "" && Escape(c)[0] != '"'
    ensures ReadChar(Escape(c) + rest) == Some((c, rest))
  {
    var s := Escape(c) + rest;
    if Control(c) {
      var n := c as int;
      assert n < 32 && n / 16 < 2 && n % 16 < 16 && n == (n / 16) * 16 + n % 16;
      HexReads(n / 16);
      HexReads(n % 16);
    }
    assert s[|Escape(c)|..] == rest;
  }

  lemma HexReads(n: nat)
    requires n < 16
    ensures HexValue(HEX[n]) == Some(n)
  {
  }

  lemma {:induction false} ReadsQuoted(s: string, rest: string)
    ensures ReadChars(EscapeAll(s) + "\"" + rest) == Some((s, rest))
  {
    if s == "" {
      assert EscapeAll(s) + "\"" + rest == "\"" + rest;
    } else {
      var more := EscapeAll(s[1..]) + "\"" + rest;
      assert EscapeAll(s) + "\"" + rest == Escape(s[0]) + more;
      ReadsEscaped(s[0], more);
      ReadsQuoted(s[1..], rest);
      assert s == [s[0]] + s[1..];
    }
  }

  // What may follow a value: nothing that could go on with a number.
  predicate Ends(rest: string) {
    rest == "" || !NumberChar(rest[0])
  }

  lemma {:induction false} ReadsNumber(n: string, rest: string)
    requires (forall i :: 0 <= i < |n| ==> NumberChar(n[i])) && Ends(rest)
    ensures NumberPart(n + rest) == n
  {
    if n == "" {
      assert n + rest == rest;
    } else {
      assert (n + rest)[1..] == n[1..] + rest;
      ReadsNumber(n[1..], rest);
      assert n == [n[0]] + n[1..];
    }
  }

  // Values begin with none of the characters that end a list, so that an empty one is told apart.
  lemma FirstChar(t: Json)
    requires WellFormed(t)
    ensures Encode(t) != "" && Encode(t)[0] !in {']', '}', ',', ':'}
  {
    hide Commas, Fields, EscapeAll;
  }

  /** How the reader takes each form, whatever the parts are. */

  lemma WordsRead(rest: string)
    ensures ReadValue("null" + rest) == Some((MNull, rest))
    ensures ReadValue("true" + rest) == Some((MBool(true), rest))
    ensures ReadValue("false" + rest) == Some((MBool(false), rest))
  {
    hide ReadItems, ReadFields, ReadChars, ReadNumber;
    assert ("null" + rest)[4..] == rest && ("true" + rest)[4..] == rest && ("false" + rest)[5..] == rest;
  }

  lemma NumberReads(n: string, rest: string)
    requires NumberText(n) && Ends(rest)
    ensures ReadValue(n + rest) == Some((MNumber(n), rest))
  {
    hide ReadItems, ReadFields, ReadChars, ReadWord, NumberPart;
    ReadsNumber(n, rest);
    assert (n + rest)[0] == n[0];
    assert (n + rest)[|n|..] == rest;
  }

  lemma TextReads(chars: string, rest: string)
    ensures ReadValue(Quote(chars) + rest) == Some((MText(chars), rest))
  {
    hide ReadItems, ReadFields, ReadChars, ReadWord, ReadNumber, EscapeAll;
    ReadsQuoted(chars, rest);
    assert (Quote(chars) + rest)[0] == '"';
    assert (Quote(chars) + rest)[1..] == EscapeAll(chars) + "\"" + rest;
  }

  lemma ArrayReads(body: string, ms: seq<Meaning>, rest: string)
    requires body != "" && body[0] != ']' && ReadItems(body) == Some((ms, rest))
    ensures ReadValue("[" + body) == Some((MArray(ms), rest))
  {
    hide ReadItems, ReadFields, ReadChars, ReadWord, ReadNumber;
    var s := "[" + body;
    assert s[1..] == body && s[0] == '[' && s[1] == body[0];
  }

  lemma EmptyReads(rest: string)
    ensures ReadValue("[]" + rest) == Some((MArray([]), rest))
    ensures ReadValue("{}" + rest) == Some((MObject(map[]), rest))
  {
    hide ReadItems, ReadFields, ReadChars, ReadWord, ReadNumber;
    assert ("[]" + rest)[2..] == rest && ("{}" + rest)[2..] == rest;
    assert ("[]" + rest)[0] == '[' && ("{}" + rest)[0] == '{';
  }

  lemma ObjectReads(body: string, ms: map<string, Meaning>, rest: string)
    requires body != "" && body[0] != '}' && ReadFields(body) == Some((ms, rest))
    ensures ReadValue("{" + body) == Some((MObject(ms), rest))
  {
    hide ReadItems, ReadFields, ReadChars, ReadWord, ReadNumber;
    var s := "{" + body;
    assert s[1..] == body && s[0] == '{' && s[1] == body[0];
  }

  lemma LastItemReads(s: string, m: Meaning, rest: string)
    requires ReadValue(s) == Some((m, "]" + rest))
    ensures ReadItems(s) == Some(([m], rest))
  {
    hide ReadValue;
    assert ("]" + rest)[0] == ']' && ("]" + rest)[1..] == rest;
  }

  lemma MoreItemsRead(s: string, m: Meaning, more: string, ms: seq<Meaning>, rest: string)
    requires ReadValue(s) == Some((m, "," + more)) && ReadItems(more) == Some((ms, rest))
    ensures ReadItems(s) == Some(([m] + ms, rest))
  {
    hide ReadValue;
    assert ("," + more)[0] == ',' && ("," + more)[1..] == more;
  }

  // A key, a colon, and a value that leaves `after`.
  lemma FieldReads(key: string, text: string, m: Meaning, after: string)
    requires ReadValue(text) == Some((m, after)) && after != ""
    ensures var s := Quote(key) + (":" + text);
      ReadFields(s)
        == if after[0] == '}' then Some((map[key := m], after[1..]))
           else if after[0] != ',' || ReadFields(after[1..]).None? then None
           else Some((ReadFields(after[1..]).value.0[key := m], ReadFields(after[1..]).value.1))
  {
    hide ReadValue, ReadChars, EscapeAll;
    var s := Quote(key) + (":" + text);
    var rest := ":" + text;
    ReadsQuoted(key, rest);
    assert s[0] == '"';
    assert s[1..] == EscapeAll(key) + "\"" + rest;
    assert rest[0] == ':' && rest[1..] == text;
  }

  /** The text of lists, taken apart. */

  lemma CommasMore(parts: seq<string>, close: string, rest: string)
    requires parts != []
    ensures Commas(parts) + close + rest
      == if |parts| == 1 then parts[0] + (close + rest) else parts[0] + ("," + (Commas(parts[1..]) + close + rest))
  {
    if |parts| == 1 {
      Associate(parts[0], close, rest);
    } else {
      var tail := Commas(parts[1..]);
      Associate(parts[0], ",", tail);
      Associate(parts[0] + ("," + tail), close, rest);
      Associate(parts[0], "," + tail, close + rest);
      Associate(",", tail, close + rest);
      Associate(tail, close, rest);
      hide Commas;
    }
  }

  lemma Associate(a: string, b: string, c: string)
    ensures (a + b) + c == a + (b + c)
  {
  }

  function ItemTexts(items: seq<Json>): (texts: seq<string>)
    ensures |texts| == |items|
  {
    seq(|items|, i requires 0 <= i < |items| => Encode(items[i]))
  }

  function ItemMeanings(items: seq<Json>): seq<Meaning> {
    seq(|items|, i requires 0 <= i < |items| => MeaningOf(items[i]))
  }

  lemma ArrayText(items: seq<Json>, rest: string)
    ensures Encode(Array(items)) + rest == "[" + (Commas(ItemTexts(items)) + "]" + rest)
    ensures MeaningOf(Array(items)) == MArray(ItemMeanings(items))
  {
    assert Encode(Array(items)) == "[" + Commas(ItemTexts(items)) + "]";
  }

  lemma ItemsFrom(items: seq<Json>, k: nat)
    requires k < |items|
    ensures ItemTexts(items[k..])[0] == Encode(items[k]) && ItemTexts(items[k..])[1..] == ItemTexts(items[k + 1..])
    ensures ItemMeanings(items[k..]) == [MeaningOf(items[k])] + ItemMeanings(items[k + 1..])
  {
    hide Encode, MeaningOf;
    assert items[k..][1..] == items[k + 1..];
  }

  function FieldMeanings(t: Json, ks: seq<string>): map<string, Meaning>
    requires t.Object? && forall k <- ks :: k in KeysOf(t.entries)
  {
    map k | k in ks :: MeaningOf(ValueFor(t, k))
  }

  lemma ObjectText(t: Json, rest: string)
    requires t.Object?
    ensures Encode(t) + rest == "{" + (Commas(Fields(t, SortedKeys(t))) + "}" + rest)
    ensures MeaningOf(t) == MObject(FieldMeanings(t, SortedKeys(t)))
  {
  }

  lemma FieldsFrom(t: Json, ks: seq<string>, k: nat)
    requires t.Object? && (forall key <- ks :: key in KeysOf(t.entries)) && k < |ks|
    ensures |Fields(t, ks[k..])| == |ks| - k
    ensures Fields(t, ks[k..])[0] == Quote(ks[k]) + ":" + Encode(ValueFor(t, ks[k]))
    ensures Fields(t, ks[k..])[1..] == Fields(t, ks[k + 1..])
    ensures FieldMeanings(t, ks[k..]) == FieldMeanings(t, ks[k + 1..])[ks[k] := MeaningOf(ValueFor(t, ks[k]))]
  {
    hide Encode, MeaningOf, Quote;
    assert ks[k..][1..] == ks[k + 1..] && ks[k..] == [ks[k]] + ks[k + 1..];
  }

  /** Reading the text of a value gives back what the value means, and leaves what follows. */
  lemma {:induction false} ReadingUndoesWriting(t: Json, rest: string)
    requires WellFormed(t) && Ends(rest)
    ensures ReadValue(Encode(t) + rest) == Some((MeaningOf(t), rest))
    decreases t, 1, 0
  {
    hide ReadValue, Quote;
    match t
    case Null =>
      WordsRead(rest);
    case Bool(b) =>
      WordsRead(rest);
    case Number(text) =>
      NumberReads(text, rest);
    case Text(chars) =>
      TextReads(chars, rest);
    case Array(items) =>
      ReadsArray(t, rest);
    case Object(entries) =>
      ReadsObject(t, rest);
  }

  lemma {:induction false} ReadsArray(t: Json, rest: string)
    requires t.Array? && WellFormed(t) && Ends(rest)
    ensures ReadValue(Encode(t) + rest) == Some((MeaningOf(t), rest))
    decreases t, 0, |t.items| + 1
  {
    hide ReadValue, ReadItems, Encode, MeaningOf;
    ArrayText(t.items, rest);
    if t.items == [] {
      assert "[" + (Commas(ItemTexts(t.items)) + "]" + rest) == "[]" + rest;
      EmptyReads(rest);
      assert ItemMeanings(t.items) == [];
    } else {
      assert t.items[0..] == t.items && t == Array(t.items);
      ReadsItems(t, 0, rest);
      FirstChar(t.items[0]);
      FirstOfCommas(ItemTexts(t.items));
      hide Commas;
      ArrayReads(Commas(ItemTexts(t.items)) + "]" + rest, ItemMeanings(t.items), rest);
    }
  }

  lemma FirstOfCommas(parts: seq<string>)
    requires parts != [] && parts[0] != ""
    ensures Commas(parts) != "" && Commas(parts)[0] == parts[0][0]
  {
  }

  lemma {:induction false} ReadsItems(t: Json, k: nat, rest: string)
    requires t.Array? && WellFormed(t) && k < |t.items|
    ensures ReadItems(Commas(ItemTexts(t.items[k..])) + "]" + rest) == Some((ItemMeanings(t.items[k..]), rest))
    decreases t, 0, |t.items| - k
  {
    hide ReadValue, ReadItems, Encode, MeaningOf, Commas, ItemTexts, ItemMeanings;
    var s := Commas(ItemTexts(t.items[k..])) + "]" + rest;
    ItemsFrom(t.items, k);
    CommasMore(ItemTexts(t.items[k..]), "]", rest);
    if k + 1 == |t.items| {
      ReadingUndoesWriting(t.items[k], "]" + rest);
      LastItemReads(s, MeaningOf(t.items[k]), rest);
      NoItems(t.items[k + 1..]);
      assert ItemMeanings(t.items[k..]) == [MeaningOf(t.items[k])];
    } else {
      var more := Commas(ItemTexts(t.items[k + 1..])) + "]" + rest;
      ReadingUndoesWriting(t.items[k], "," + more);
      ReadsItems(t, k + 1, rest);
      MoreItemsRead(s, MeaningOf(t.items[k]), more, ItemMeanings(t.items[k + 1..]), rest);
    }
  }

  lemma NoItems(items: seq<Json>)
    requires items == []
    ensures ItemMeanings(items) == []
  {
  }

  lemma {:induction false} ReadsObject(t: Json, rest: string)
    requires t.Object? && WellFormed(t) && Ends(rest)
    ensures ReadValue(Encode(t) + rest) == Some((MeaningOf(t), rest))
    decreases t, 0, |SortedKeys(t)| + 1
  {
    hide ReadValue, ReadFields, Encode, MeaningOf, SortedKeys, Quote;
    var ks := SortedKeys(t);
    ObjectText(t, rest);
    if ks == [] {
      NoFields(t, ks, rest);
      EmptyReads(rest);
    } else {
      assert ks[0..] == ks;
      ReadsFields(t, ks, 0, rest);
      FieldsFrom(t, ks, 0);
      QuoteFirst(ks[0], ":" + Encode(ValueFor(t, ks[0])));
      FirstOfCommas(Fields(t, ks));
      hide Commas, Fields;
      ObjectReads(Commas(Fields(t, ks)) + "}" + rest, FieldMeanings(t, ks), rest);
    }
  }

  lemma QuoteFirst(key: string, more: string)
    ensures (Quote(key) + more) != "" && (Quote(key) + more)[0] == '"'
    ensures forall tail: string :: Quote(key) + ":" + tail == Quote(key) + (":" + tail)
  {
    forall tail: string
      ensures Quote(key) + ":" + tail == Quote(key) + (":" + tail)
    {
    }
  }

  lemma NoFields(t: Json, ks: seq<string>, rest: string)
    requires t.Object? && ks == []
    ensures "{" + (Commas(Fields(t, ks)) + "}" + rest) == "{}" + rest
    ensures FieldMeanings(t, ks) == map[]
  {
  }

  lemma KeysAreSorted(t: Json)
    requires t.Object? && WellFormed(t)
    ensures Sorted(SortedKeys(t))
  {
    SortSorts(KeysOf(t.entries));
  }

  lemma {:induction false} ReadsFields(t: Json, ks: seq<string>, k: nat, rest: string)
    requires t.Object? && WellFormed(t) && (forall key <- ks :: key in KeysOf(t.entries)) && k < |ks|
    ensures ReadFields(Commas(Fields(t, ks[k..])) + "}" + rest) == Some((FieldMeanings(t, ks[k..]), rest))
    decreases t, 0, |ks| - k
  {
    hide ReadValue, ReadFields, Encode, MeaningOf, Commas, Fields, FieldMeanings, Quote;
    var key := ks[k];
    var value := t.entries[IndexOf(t.entries, key)].value;
    var text := Encode(value);
    FieldsFrom(t, ks, k);
    CommasMore(Fields(t, ks[k..]), "}", rest);
    var after := if k + 1 == |ks| then "}" + rest else "," + (Commas(Fields(t, ks[k + 1..])) + "}" + rest);
    FieldText(key, text, after);
    ReadingUndoesWriting(value, after);
    FieldReads(key, text + after, MeaningOf(value), after);
    if k + 1 == |ks| {
      assert after[1..] == rest;
      NoFields(t, ks[k + 1..], rest);
    } else {
      assert after[1..] == Commas(Fields(t, ks[k + 1..])) + "}" + rest;
      ReadsFields(t, ks, k + 1, rest);
    }
  }

  lemma FieldText(key: string, text: string, after: string)
    ensures (Quote(key) + ":" + text) + after == Quote(key) + (":" + (text + after))
  {
  }

  /** What a value means decides its text. */
  lemma {:induction false} MeaningDecidesText(a: Json, b: Json)
    requires WellFormed(a) && WellFormed(b) && MeaningOf(a) == MeaningOf(b)
    ensures Encode(a) == Encode(b)
    decreases a
  {
    match a
    case Array(items) =>
      forall i | 0 <= i < |items|
        ensures Encode(items[i]) == Encode(b.items[i])
      {
        assert MeaningOf(a).items[i] == MeaningOf(b).items[i];
        MeaningDecidesText(items[i], b.items[i]);
      }
      assert |b.items| == |MeaningOf(b).items|;
      assert ItemTexts(items) == ItemTexts(b.items);
    case Object(entries) =>
      SameFields(a, b);
    case _ =>
  }

  lemma {:induction false} SameFields(a: Json, b: Json)
    requires WellFormed(a) && WellFormed(b) && MeaningOf(a) == MeaningOf(b) && a.Object? && b.Object?
    ensures Encode(a) == Encode(b)
    decreases a, 0
  {
    var ks := SortedKeys(a);
    KeysAreSorted(a);
    KeysAreSorted(b);
    forall k
      ensures k in ks <==> k in SortedKeys(b)
    {
      assert k in MeaningOf(a).fields <==> k in MeaningOf(b).fields;
    }
    SortedIsUnique(ks, SortedKeys(b));
    forall i | 0 <= i < |ks|
      ensures Fields(a, ks)[i] == Fields(b, ks)[i]
    {
      assert ks[i] in ks;
      assert MeaningOf(a).fields[ks[i]] == MeaningOf(b).fields[ks[i]];
      MeaningDecidesText(a.entries[IndexOf(a.entries, ks[i])].value, b.entries[IndexOf(b.entries, ks[i])].value);
    }
    assert Fields(a, ks) == Fields(b, ks);
  }

  /** Canonical text decides equality: two values within the depth bound have the same text exactly when they are the same
      up to the order of their keys. */
  lemma SameTextIffSameMeaning(a: Json, b: Json, maxDepth: int := DEFAULT_MAX_DEPTH)
    requires WellFormed(a) && WellFormed(b) && WithinDepth(a, maxDepth) && WithinDepth(b, maxDepth)
    ensures CanonicalText(a, maxDepth) == CanonicalText(b, maxDepth) <==> MeaningOf(a) == MeaningOf(b)
  {
    if Encode(a) == Encode(b) {
      ReadingUndoesWriting(a, "");
      ReadingUndoesWriting(b, "");
    } else if MeaningOf(a) == MeaningOf(b) {
      MeaningDecidesText(a, b);
    }
  }
}
