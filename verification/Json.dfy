/** automation/json.c: writing JSON text as the calls come in. */
module Json {

  datatype Option<T> = None | Some(value: T)

  // A C string: bytes, written as characters, none of them the terminator
  type CString = t: string | '\0' !in t

  datatype Value =
    | Text(text: string)
    | Number(number: nat)
    | Boolean(truth: bool)
    | Container(named: bool, items: seq<Item>)

  // The members of an object are named, the items of an array have an empty name
  datatype Item = Item(name: string, value: Value)

  // ---------------------------------------------------------------- what is written

  function Hex(d: nat): (c: char)
    requires d < 16
  {
    if d < 10 then '0' + d as char else 'a' + (d - 10) as char
  }

  function Escape(c: char): string
  {
    if c == '"' then "\\\""
    else if c == '\\' then "\\\\"
    else if c as int == 8 then "\\b"
    else if c as int == 12 then "\\f"
    else if c == '\n' then "\\n"
    else if c == '\r' then "\\r"
    else if c == '\t' then "\\t"
    else if (c as int) < 32 then "\\u00" + [Hex(c as int / 16), Hex(c as int % 16)]
    else [c]
  }

  function Escapes(t: string): (parts: seq<string>)
    ensures AreEscapes(parts, t)
  {
    seq(|t|, k requires 0 <= k < |t| => Escape(t[k]))
  }

  ghost predicate AreEscapes(parts: seq<string>, t: string) {
    |parts| == |t| && forall k {:trigger Escape(t[k])} :: 0 <= k < |t| ==> parts[k] == Escape(t[k])
  }

  // The first n parts, one after the other
  function Glued(parts: seq<string>, n: nat): string
    requires n <= |parts|
  {
    if n == 0 then "" else Glued(parts, n - 1) + parts[n - 1]
  }

  function Quoted(t: string): string { ['"'] + Glued(Escapes(t), |t|) + ['"'] }

  function Decimal(n: nat): string {
    if n < 10 then ['0' + n as char] else Decimal(n / 10) + ['0' + (n % 10) as char]
  }

  function Open(named: bool): char { if named then '{' else '[' }

  function Close(named: bool): char { if named then '}' else ']' }

  function Printed(v: Value): string
    decreases v, 0
  {
    match v
    case Text(t) => Quoted(t)
    case Number(n) => Decimal(n)
    case Boolean(b) => if b then "true" else "false"
    case Container(named, items) => [Open(named)] + Joined(Texts(named, items), |items|) + [Close(named)]
  }

  function Named(named: bool, name: string): string { if named then Quoted(name) + ":" else "" }

  function Texts(named: bool, items: seq<Item>): (texts: seq<string>)
    ensures AreTexts(texts, named, items)
    decreases items
  {
    seq(|items|, k requires 0 <= k < |items| => PrintedItem(named, items[k]))
  }

  ghost predicate AreTexts(texts: seq<string>, named: bool, items: seq<Item>)
    decreases items, 0
  {
    && |texts| == |items|
    && forall k {:trigger PrintedItem(named, items[k])} :: 0 <= k < |items| ==> texts[k] == PrintedItem(named, items[k])
  }

  // The first n items, with the commas between them
  function Joined(texts: seq<string>, n: nat): string
    requires n <= |texts|
  {
    if n == 0 then "" else Joined(texts, n - 1) + Comma(n) + texts[n - 1]
  }

  function Comma(n: nat): string { if n > 1 then "," else "" }

  function PrintedItem(named: bool, item: Item): string
    decreases item, 1
  {
    Named(named, item.name) + Printed(item.value)
  }

  // ---------------------------------------------------------------- what it means

  // The rest of a string, from position i on, as sections 2 to 7 of RFC 8259 have it
  function ReadText(s: string, i: nat, sofar: string): (r: Option<(string, nat)>)
    requires i <= |s|
    ensures r.Some? ==> i < r.value.1 <= |s|
    decreases |s| - i
  {
    if i == |s| || (s[i] as int) < 32 then None
    else if s[i] == '"' then Some((sofar, i + 1))
    else if s[i] != '\\' then ReadText(s, i + 1, sofar + [s[i]])
    else if i + 1 < |s| && s[i + 1] == 'u' then
      if i + 6 <= |s| && HexWord(s, i + 2).Some? && HexWord(s, i + 2).value < 128
      then ReadText(s, i + 6, sofar + [HexWord(s, i + 2).value as char]) else None
    else if i + 1 < |s| && Escapee(s[i + 1]).Some? then ReadText(s, i + 2, sofar + [Escapee(s[i + 1]).value])
    else None
  }

  function Escapee(c: char): Option<char> {
    if c == '"' || c == '\\' || c == '/' then Some(c)
    else if c == 'b' then Some(8 as char)
    else if c == 'f' then Some(12 as char)
    else if c == 'n' then Some('\n')
    else if c == 'r' then Some('\r')
    else if c == 't' then Some('\t')
    else None
  }

  function HexDigit(c: char): (d: Option<nat>)
    ensures d.Some? ==> d.value < 16
  {
    if '0' <= c <= '9' then Some((c - '0') as nat)
    else if 'a' <= c <= 'f' then Some((c - 'a') as nat + 10)
    else if 'A' <= c <= 'F' then Some((c - 'A') as nat + 10)
    else None
  }

  function HexWord(s: string, i: nat): Option<nat>
    requires i + 4 <= |s|
  {
    var d0, d1, d2, d3 := HexDigit(s[i]), HexDigit(s[i + 1]), HexDigit(s[i + 2]), HexDigit(s[i + 3]);
    if d0.Some? && d1.Some? && d2.Some? && d3.Some?
    then Some(4096 * d0.value + 256 * d1.value + 16 * d2.value + d3.value) else None
  }

  predicate IsDigit(c: char) { '0' <= c <= '9' }

  // The digits from position i on, after a number read so far
  function ReadDigits(s: string, i: nat, sofar: nat): (r: (nat, nat))
    requires i <= |s|
    ensures i <= r.1 <= |s| && (i < |s| && IsDigit(s[i]) ==> i < r.1)
    decreases |s| - i
  {
    if i < |s| && IsDigit(s[i]) then ReadDigits(s, i + 1, 10 * sofar + (s[i] - '0') as nat) else (sofar, i)
  }

  predicate HasAt(s: string, i: nat, word: string) {
    i + |word| <= |s| && forall j {:trigger word[j]} :: 0 <= j < |word| ==> s[i + j] == word[j]
  }

  // The value at position i, and where it ends
  function ReadValue(s: string, i: nat): (r: Option<(Value, nat)>)
    requires i <= |s|
    ensures r.Some? ==> i < r.value.1 <= |s|
    decreases |s| - i, 0
  {
    if i == |s| then None
    else if s[i] == '"' then
      var t := ReadText(s, i + 1, "");
      if t.Some? then Some((Text(t.value.0), t.value.1)) else None
    else if IsDigit(s[i]) then
      if s[i] == '0' && i + 1 < |s| && IsDigit(s[i + 1]) then None
      else var (n, j) := ReadDigits(s, i, 0); Some((Number(n), j))
    else if s[i] == '{' || s[i] == '[' then
      var items := ReadItems(s, i + 1, s[i] == '{', []);
      if items.Some? then Some((Container(s[i] == '{', items.value.0), items.value.1)) else None
    else if HasAt(s, i, "true") then Some((Boolean(true), i + 4))
    else if HasAt(s, i, "false") then Some((Boolean(false), i + 5))
    else None
  }

  predicate Closes(c: char, named: bool) { c == if named then '}' else ']' }

  // The items left of a container, after those read so far
  function ReadItems(s: string, i: nat, named: bool, sofar: seq<Item>): (r: Option<(seq<Item>, nat)>)
    requires i <= |s|
    ensures r.Some? ==> i < r.value.1 <= |s|
    decreases |s| - i, 2
  {
    if i == |s| then None
    else if Closes(s[i], named) then Some((sofar, i + 1))
    else if sofar != [] && s[i] != ',' then None
    else
      var item := ReadItem(s, if sofar == [] then i else i + 1, named);
      if item.Some? then ReadItems(s, item.value.1, named, sofar + [item.value.0]) else None
  }

  function ReadItem(s: string, i: nat, named: bool): (r: Option<(Item, nat)>)
    requires i <= |s|
    ensures r.Some? ==> i < r.value.1 <= |s|
    decreases |s| - i, 1
  {
    if !named then
      var v := ReadValue(s, i);
      if v.Some? then Some((Item("", v.value.0), v.value.1)) else None
    else if i < |s| && s[i] == '"' then
      var name := ReadText(s, i + 1, "");
      if name.None? || name.value.1 == |s| || s[name.value.1] != ':' then None
      else
        var v := ReadValue(s, name.value.1 + 1);
        if v.Some? then Some((Item(name.value.0, v.value.0), v.value.1)) else None
    else None
  }

  // ---------------------------------------------------------------- reading what was written

  lemma HasParts(s: string, i: nat, a: string, b: string)
    requires HasAt(s, i, a + b)
    ensures HasAt(s, i, a) && HasAt(s, i + |a|, b)
  {
    forall j | 0 <= j < |a| ensures s[i + j] == a[j] { assert a[j] == (a + b)[j]; }
    forall j | 0 <= j < |b| ensures s[i + |a| + j] == b[j] { assert b[j] == (a + b)[|a| + j]; }
  }

  lemma HasChars(s: string, i: nat, word: string)
    requires HasAt(s, i, word)
    ensures forall j {:trigger word[j]} :: 0 <= j < |word| ==> s[i + j] == word[j]
  {
  }

  lemma EscapeRead(s: string, i: nat, c: char, sofar: string)
    requires HasAt(s, i, Escape(c))
    ensures ReadText(s, i, sofar) == ReadText(s, i + |Escape(c)|, sofar + [c])
  {
    var e := Escape(c);
    HasChars(s, i, e);
    assert s[i] == e[0];
    if |e| > 1 { assert s[i + 1] == e[1]; }
    if |e| == 6 {
      assert s[i + 2] == e[2] && s[i + 3] == e[3] && s[i + 4] == e[4] && s[i + 5] == e[5];
      HexRead(s, i + 2, c);
    }
  }

  lemma HexRead(s: string, i: nat, c: char)
    requires i + 4 <= |s| && (c as int) < 32 && s[i] == '0' && s[i + 1] == '0'
    requires s[i + 2] == Hex(c as int / 16) && s[i + 3] == Hex(c as int % 16)
    ensures HexWord(s, i) == Some(c as nat)
  {
    HexDigitRead(c as int / 16);
    HexDigitRead(c as int % 16);
  }

  lemma HexDigitRead(d: nat)
    requires d < 16
    ensures HexDigit(Hex(d)) == Some(d)
  {
  }

  lemma CharacterRead(s: string, i: nat, t: string, parts: seq<string>, k: nat, sofar: string)
    requires AreEscapes(parts, t) && k < |t| && HasAt(s, i, parts[k])
    ensures ReadText(s, i, sofar) == ReadText(s, i + |parts[k]|, sofar + [t[k]])
  {
    var e := Escape(t[k]);
    EscapeRead(s, i, t[k], sofar);
  }

  lemma GluedParts(s: string, i: nat, parts: seq<string>, n: nat)
    requires 0 < n <= |parts| && HasAt(s, i, Glued(parts, n))
    ensures HasAt(s, i, Glued(parts, n - 1)) && HasAt(s, i + |Glued(parts, n - 1)|, parts[n - 1])
    ensures |Glued(parts, n)| == |Glued(parts, n - 1)| + |parts[n - 1]|
  {
    HasParts(s, i, Glued(parts, n - 1), parts[n - 1]);
  }

  lemma {:induction false} EscapedRead(s: string, i: nat, t: string, parts: seq<string>, n: nat)
    requires AreEscapes(parts, t) && n <= |t| && HasAt(s, i, Glued(parts, n))
    ensures ReadText(s, i, "") == ReadText(s, i + |Glued(parts, n)|, t[..n])
  {
    if n > 0 {
      GluedParts(s, i, parts, n);
      EscapedRead(s, i, t, parts, n - 1);
      CharacterRead(s, i + |Glued(parts, n - 1)|, t, parts, n - 1, t[..n - 1]);
      assert t[..n] == t[..n - 1] + [t[n - 1]];
    }
  }

  lemma Bracketed(s: string, i: nat, a: char, inner: string, b: char)
    requires HasAt(s, i, [a] + inner + [b])
    ensures s[i] == a && HasAt(s, i + 1, inner)
    ensures i + 1 + |inner| < |s| && s[i + 1 + |inner|] == b
  {
    HasParts(s, i, [a] + inner, [b]);
    HasParts(s, i, [a], inner);
    HasChars(s, i, [a]);
    HasChars(s, i + 1 + |inner|, [b]);
    assert s[i] == [a][0] && s[i + 1 + |inner|] == [b][0];
  }

  // A string is read back, character for character
  lemma TextRoundTrip(s: string, i: nat, t: string)
    requires HasAt(s, i, Quoted(t))
    ensures s[i] == '"' && ReadText(s, i + 1, "") == Some((t, i + |Quoted(t)|))
  {
    var parts := Escapes(t);
    Bracketed(s, i, '"', Glued(parts, |t|), '"');
    EscapedRead(s, i + 1, t, parts, |t|);
    assert t[..|t|] == t;
    TextEnds(s, i + 1 + |Glued(parts, |t|)|, t);
  }

  lemma TextEnds(s: string, i: nat, t: string)
    requires i < |s| && s[i] == '"'
    ensures ReadText(s, i, t) == Some((t, i + 1))
  {
  }

  lemma {:induction false} DigitsRead(s: string, i: nat, n: nat)
    requires HasAt(s, i, Decimal(n))
    ensures ReadDigits(s, i, 0) == ReadDigits(s, i + |Decimal(n)|, n)
    ensures IsDigit(s[i]) && (s[i] == '0' ==> n == 0)
  {
    if n < 10 {
      HasChars(s, i, Decimal(n));
      assert s[i] == Decimal(n)[0];
    } else {
      var last := ['0' + (n % 10) as char];
      HasParts(s, i, Decimal(n / 10), last);
      DigitsRead(s, i, n / 10);
      HasChars(s, i + |Decimal(n / 10)|, last);
      assert s[i + |Decimal(n / 10)|] == last[0];
    }
  }

  // Nothing follows that could belong to a number
  predicate Delimited(s: string, i: nat) { i >= |s| || !IsDigit(s[i]) }

  lemma NumberRoundTrip(s: string, i: nat, n: nat)
    requires HasAt(s, i, Decimal(n)) && Delimited(s, i + |Decimal(n)|)
    ensures ReadValue(s, i) == Some((Number(n), i + |Decimal(n)|))
  {
    DigitsRead(s, i, n);
  }

  // Names are for the members of objects
  ghost predicate Plain(v: Value)
    decreases v
  {
    v.Container? ==> PlainItems(v.named, v.items)
  }

  ghost predicate PlainItems(named: bool, items: seq<Item>)
    decreases items
  {
    forall i :: 0 <= i < |items| ==> Plain(items[i].value) && (named || items[i].name == "")
  }

  lemma {:induction false} DecimalStart(n: nat)
    ensures Decimal(n) != "" && IsDigit(Decimal(n)[0])
  {
    if n >= 10 { DecimalStart(n / 10); }
  }

  lemma PrintedStart(v: Value)
    ensures Printed(v) != "" && Printed(v)[0] !in "]},"
  {
    if v.Number? { DecimalStart(v.number); }
  }

  // A value is read back, whatever follows, unless it is a number and more digits follow
  lemma {:induction false} ValueRoundTrip(s: string, i: nat, v: Value)
    requires Plain(v) && HasAt(s, i, Printed(v)) && Delimited(s, i + |Printed(v)|)
    ensures ReadValue(s, i) == Some((v, i + |Printed(v)|))
    decreases v, 0
  {
    match v {
      case Text(t) => TextRoundTrip(s, i, t);
      case Number(n) => NumberRoundTrip(s, i, n);
      case Boolean(b) => WordRead(s, i, b);
      case Container(named, items) => ContainerRoundTrip(s, i, named, items);
    }
  }

  lemma {:induction false} ContainerRoundTrip(s: string, i: nat, named: bool, items: seq<Item>)
    requires PlainItems(named, items)
    requires HasAt(s, i, [Open(named)] + Joined(Texts(named, items), |items|) + [Close(named)])
    ensures ReadValue(s, i) == Some((Container(named, items), i + 2 + |Joined(Texts(named, items), |items|)|))
    decreases items, |items| + 1
  {
    var texts := Texts(named, items);
    var inner := Joined(texts, |items|);
    Bracketed(s, i, Open(named), inner, Close(named));
    ItemsReadBack(named, items, texts);
    ItemsRead(s, i + 1, named, items, texts, |items|);
    assert items[..|items|] == items;
    LastItemRead(s, i, i + 1 + |inner|, named, items);
  }

  lemma LastItemRead(s: string, i: nat, j: nat, named: bool, items: seq<Item>)
    requires i < j < |s| && s[i] == Open(named) && s[j] == Close(named)
    requires ReadItems(s, i + 1, named, []) == ReadItems(s, j, named, items)
    ensures ReadValue(s, i) == Some((Container(named, items), j + 1))
  {
  }

  lemma WordRead(s: string, i: nat, b: bool)
    requires HasAt(s, i, if b then "true" else "false")
    ensures ReadValue(s, i) == Some((Boolean(b), i + |if b then "true" else "false"|))
  {
    HasChars(s, i, if b then "true" else "false");
    assert s[i] == (if b then "true" else "false")[0] && "true"[0] != "false"[0];
  }

  predicate ItemEnds(s: string, i: nat, named: bool) {
    i < |s| && (s[i] == ',' || Closes(s[i], named))
  }

  predicate ItemIs(s: string, j: nat, named: bool, item: Item, end: nat)
    requires j <= |s|
  {
    ReadItem(s, j, named) == Some((item, end))
  }

  // Wherever the text of an item stands in a container, the item is read there
  ghost predicate ReadsBack(text: string, named: bool, item: Item) {
    forall s: string, j: nat {:trigger HasAt(s, j, text)} :: HasAt(s, j, text) && ItemEnds(s, j + |text|, named) ==>
      s[j] !in "]}," && ItemIs(s, j, named, item, j + |text|)
  }

  lemma {:induction false} ItemsReadBack(named: bool, items: seq<Item>, texts: seq<string>)
    requires PlainItems(named, items) && AreTexts(texts, named, items)
    ensures forall k :: 0 <= k < |items| ==> ReadsBack(texts[k], named, items[k])
    decreases items, |items|
  {
    forall k | 0 <= k < |items| ensures ReadsBack(texts[k], named, items[k]) {
      var text := PrintedItem(named, items[k]);
      ItemReadsBack(named, items[k]);
    }
  }

  lemma {:induction false} ItemReadsBack(named: bool, item: Item)
    requires Plain(item.value) && (named || item.name == "")
    ensures ReadsBack(PrintedItem(named, item), named, item)
    decreases item, 2
  {
    var text := PrintedItem(named, item);
    forall s: string, j: nat | HasAt(s, j, text) && ItemEnds(s, j + |text|, named)
      ensures s[j] !in "]}," && ItemIs(s, j, named, item, j + |text|)
    {
      ItemStart(s, j, named, item);
      ItemRoundTrip(s, j, named, item);
    }
  }

  lemma {:induction false} ItemsRead(s: string, i: nat, named: bool, items: seq<Item>, texts: seq<string>, n: nat)
    requires n <= |items| == |texts| && (forall k :: 0 <= k < |items| ==> ReadsBack(texts[k], named, items[k]))
    requires HasAt(s, i, Joined(texts, n)) && (n > 0 ==> ItemEnds(s, i + |Joined(texts, n)|, named))
    ensures ReadItems(s, i, named, []) == ReadItems(s, i + |Joined(texts, n)|, named, items[..n])
  {
    if n > 0 {
      OneItemMore(s, i, named, items, texts, n);
      ItemsRead(s, i, named, items, texts, n - 1);
    }
  }

  lemma OneItemMore(s: string, i: nat, named: bool, items: seq<Item>, texts: seq<string>, n: nat)
    requires 0 < n <= |items| == |texts| && ReadsBack(texts[n - 1], named, items[n - 1])
    requires HasAt(s, i, Joined(texts, n)) && ItemEnds(s, i + |Joined(texts, n)|, named)
    ensures HasAt(s, i, Joined(texts, n - 1)) && (n > 1 ==> ItemEnds(s, i + |Joined(texts, n - 1)|, named))
    ensures ReadItems(s, i + |Joined(texts, n - 1)|, named, items[..n - 1])
         == ReadItems(s, i + |Joined(texts, n)|, named, items[..n])
  {
    var sofar := items[..n - 1];
    JoinedParts(s, i, texts, n);
    assert |sofar| + 1 == n && items[..n] == sofar + [items[n - 1]];
    LastRead(s, i + |Joined(texts, n - 1)|, named, sofar, items[n - 1], texts[n - 1]);
  }

  lemma JoinedParts(s: string, i: nat, texts: seq<string>, n: nat)
    requires 0 < n <= |texts| && HasAt(s, i, Joined(texts, n))
    ensures HasAt(s, i, Joined(texts, n - 1)) && HasAt(s, i + |Joined(texts, n - 1)|, Comma(n))
    ensures HasAt(s, i + |Joined(texts, n - 1)| + |Comma(n)|, texts[n - 1])
    ensures |Joined(texts, n)| == |Joined(texts, n - 1)| + |Comma(n)| + |texts[n - 1]|
  {
    HasParts(s, i, Joined(texts, n - 1) + Comma(n), texts[n - 1]);
    HasParts(s, i, Joined(texts, n - 1), Comma(n));
  }

  lemma LastRead(s: string, k: nat, named: bool, sofar: seq<Item>, item: Item, text: string)
    requires ReadsBack(text, named, item)
    requires var comma := Comma(|sofar| + 1);
             HasAt(s, k, comma) && HasAt(s, k + |comma|, text) && ItemEnds(s, k + |comma| + |text|, named)
    ensures ReadItems(s, k, named, sofar) == ReadItems(s, k + |Comma(|sofar| + 1)| + |text|, named, sofar + [item])
    ensures k < |s| && (sofar != [] ==> s[k] == ',')
  {
    if sofar != [] { CommaAt(s, k, |sofar| + 1); }
    NextItemRead(s, k, named, sofar, item, k + |Comma(|sofar| + 1)| + |text|);
  }

  lemma CommaAt(s: string, k: nat, n: nat)
    requires HasAt(s, k, Comma(n)) && n > 1
    ensures k < |s| && s[k] == ','
  {
    HasChars(s, k, Comma(n));
    assert s[k] == Comma(n)[0];
  }

  lemma NextItemRead(s: string, k: nat, named: bool, sofar: seq<Item>, item: Item, j: nat)
    requires k < |s| && (if sofar == [] then s[k] !in "]}," else s[k] == ',')
    requires ReadItem(s, if sofar == [] then k else k + 1, named) == Some((item, j))
    ensures ReadItems(s, k, named, sofar) == ReadItems(s, j, named, sofar + [item])
  {
  }

  lemma {:induction false} ItemRoundTrip(s: string, j: nat, named: bool, item: Item)
    requires Plain(item.value) && (named || item.name == "") && HasAt(s, j, PrintedItem(named, item))
    requires Delimited(s, j + |PrintedItem(named, item)|)
    ensures ReadItem(s, j, named) == Some((item, j + |PrintedItem(named, item)|))
    decreases item, 1
  {
    NamedParts(s, j, named, item.name, Printed(item.value));
    ValueRoundTrip(s, j + |Named(named, item.name)|, item.value);
    if named {
      TextRoundTrip(s, j, item.name);
      NamedItemRead(s, j, j + |Quoted(item.name)|, item, j + |PrintedItem(named, item)|);
    } else {
      assert Named(named, item.name) == "";
    }
  }

  lemma NamedItemRead(s: string, j: nat, k: nat, item: Item, end: nat)
    requires j < k < |s| && s[j] == '"' && s[k] == ':' && ReadText(s, j + 1, "") == Some((item.name, k))
    requires ReadValue(s, k + 1) == Some((item.value, end))
    ensures ReadItem(s, j, true) == Some((item, end))
  {
  }

  lemma NamedParts(s: string, j: nat, named: bool, name: string, value: string)
    requires HasAt(s, j, Named(named, name) + value)
    ensures HasAt(s, j + |Named(named, name)|, value)
    ensures named ==> HasAt(s, j, Quoted(name)) && j + |Quoted(name)| < |s| && s[j + |Quoted(name)|] == ':'
  {
    HasParts(s, j, Named(named, name), value);
    if named {
      HasParts(s, j, Quoted(name), ":");
      HasChars(s, j + |Quoted(name)|, ":");
      assert s[j + |Quoted(name)|] == ":"[0];
    }
  }

  // An item does not begin like the end of its container
  lemma ItemStart(s: string, j: nat, named: bool, item: Item)
    requires HasAt(s, j, PrintedItem(named, item))
    ensures j < |s| && s[j] !in "]},"
  {
    PrintedStart(item.value);
    var text := PrintedItem(named, item);
    HasChars(s, j, text);
    assert s[j] == text[0];
  }

  // ---------------------------------------------------------------- a document being written

  // A container that has been begun, its name in the one around it, and its items so far
  datatype Frame = Frame(named: bool, name: string, items: seq<Item>)

  datatype Document = Document(values: seq<Value>, open: seq<Frame>)

  // A value is added to the innermost container, or stands by itself
  function Added(doc: Document, name: string, v: Value): Document {
    var n := |doc.open|;
    if n == 0 then doc.(values := doc.values + [v])
    else
      var last := doc.open[n - 1];
      doc.(open := doc.open[..n - 1] + [last.(items := last.items + [Item(if last.named then name else "", v)])])
  }

  function Begun(doc: Document, name: string, named: bool): Document {
    doc.(open := doc.open + [Frame(named, name, [])])
  }

  function Ended(doc: Document): Document
    requires doc.open != []
  {
    var last := doc.open[|doc.open| - 1];
    Added(doc.(open := doc.open[..|doc.open| - 1]), last.name, Container(last.named, last.items))
  }

  ghost predicate PlainDocument(doc: Document) {
    && (forall i :: 0 <= i < |doc.values| ==> Plain(doc.values[i]))
    && forall i :: 0 <= i < |doc.open| ==> PlainItems(doc.open[i].named, doc.open[i].items)
  }

  lemma AddedPlain(doc: Document, name: string, v: Value)
    requires PlainDocument(doc) && Plain(v)
    ensures PlainDocument(Added(doc, name, v))
  {
  }

  lemma EndedPlain(doc: Document)
    requires PlainDocument(doc) && doc.open != []
    ensures PlainDocument(Ended(doc))
  {
    var last := doc.open[|doc.open| - 1];
    AddedPlain(doc.(open := doc.open[..|doc.open| - 1]), last.name, Container(last.named, last.items));
  }

  // What comes before a value: a comma, unless it is the first, and its name in an object
  function Lead(open: seq<Frame>, name: string): string {
    if open == [] then "" else Comma(|open[|open| - 1].items| + 1) + Named(open[|open| - 1].named, name)
  }

  function ValuesText(values: seq<Value>, n: nat): string
    requires n <= |values|
  {
    if n == 0 then "" else ValuesText(values, n - 1) + Printed(values[n - 1])
  }

  function ItemsText(frame: Frame): string { Joined(Texts(frame.named, frame.items), |frame.items|) }

  // The outer n containers as far as they go
  function OpenText(open: seq<Frame>, n: nat): string
    requires n <= |open|
  {
    if n == 0 then ""
    else OpenText(open, n - 1) + Lead(open[..n - 1], open[n - 1].name)
         + [Open(open[n - 1].named)] + ItemsText(open[n - 1])
  }

  function DocumentText(doc: Document): string {
    ValuesText(doc.values, |doc.values|) + OpenText(doc.open, |doc.open|)
  }

  lemma {:induction false} OpenSame(open: seq<Frame>, other: seq<Frame>, n: nat)
    requires n <= |open| && n <= |other| && open[..n] == other[..n]
    ensures OpenText(open, n) == OpenText(other, n)
  {
    if n > 0 {
      assert open[..n - 1] == open[..n][..n - 1] && other[..n - 1] == other[..n][..n - 1];
      assert open[n - 1] == open[..n][n - 1] && other[n - 1] == other[..n][n - 1];
      OpenSame(open, other, n - 1);
    }
  }

  lemma {:induction false} ValuesSame(values: seq<Value>, others: seq<Value>, n: nat)
    requires n <= |values| && n <= |others| && values[..n] == others[..n]
    ensures ValuesText(values, n) == ValuesText(others, n)
  {
    if n > 0 {
      assert values[..n - 1] == values[..n][..n - 1] && others[..n - 1] == others[..n][..n - 1];
      assert values[n - 1] == values[..n][n - 1] && others[n - 1] == others[..n][n - 1];
      ValuesSame(values, others, n - 1);
    }
  }

  lemma {:induction false} JoinedSame(texts: seq<string>, others: seq<string>, n: nat)
    requires n <= |texts| && n <= |others| && forall k :: 0 <= k < n ==> texts[k] == others[k]
    ensures Joined(texts, n) == Joined(others, n)
  {
    if n > 0 { JoinedSame(texts, others, n - 1); }
  }

  lemma ItemAdded(frame: Frame, item: Item)
    ensures ItemsText(frame.(items := frame.items + [item]))
         == ItemsText(frame) + Comma(|frame.items| + 1) + PrintedItem(frame.named, item)
  {
    var texts, all := Texts(frame.named, frame.items), Texts(frame.named, frame.items + [item]);
    assert forall k :: 0 <= k < |texts| ==> all[k] == PrintedItem(frame.named, (frame.items + [item])[k]);
    JoinedSame(texts, all, |texts|);
  }

  lemma LastFrameText(outer: seq<Frame>, last: Frame)
    ensures OpenText(outer + [last], |outer| + 1)
         == OpenText(outer, |outer|) + Lead(outer, last.name) + [Open(last.named)] + ItemsText(last)
  {
    OpenSame(outer, outer + [last], |outer|);
    assert (outer + [last])[..|outer|] == outer;
  }

  lemma LastValueText(values: seq<Value>, v: Value)
    ensures ValuesText(values + [v], |values| + 1) == ValuesText(values, |values|) + Printed(v)
  {
    ValuesSame(values, values + [v], |values|);
  }

  lemma Regroup(a: string, b: string, c: string, d: string)
    ensures a + (b + c + d) == a + (b + c) + d == a + b + c + d == a + b + (c + d)
  {
  }

  // The text of the open containers when an item is added to the last of them
  lemma ItemAddedText(outer: seq<Frame>, last: Frame, item: Item)
    ensures OpenText(outer + [last.(items := last.items + [item])], |outer| + 1)
         == OpenText(outer + [last], |outer| + 1) + (Comma(|last.items| + 1) + PrintedItem(last.named, item))
  {
    LastFrameText(outer, last);
    LastFrameText(outer, last.(items := last.items + [item]));
    ItemAdded(last, item);
    var before := OpenText(outer, |outer|) + Lead(outer, last.name) + [Open(last.named)];
    Regroup(before, ItemsText(last), Comma(|last.items| + 1), PrintedItem(last.named, item));
  }

  // Adding a value is writing what comes before it, and then it
  lemma AddedText(doc: Document, name: string, v: Value)
    ensures DocumentText(Added(doc, name, v)) == DocumentText(doc) + (Lead(doc.open, name) + Printed(v))
  {
    if doc.open == [] {
      AddedAlone(doc, name, v);
    } else {
      AddedInside(doc, name, v);
      Concat(ValuesText(doc.values, |doc.values|), OpenText(doc.open, |doc.open|), Lead(doc.open, name) + Printed(v));
    }
  }

  lemma AddedAlone(doc: Document, name: string, v: Value)
    requires doc.open == []
    ensures DocumentText(Added(doc, name, v)) == DocumentText(doc) + (Lead(doc.open, name) + Printed(v))
  {
    LastValueText(doc.values, v);
    NothingOpen(doc);
    NothingOpen(Added(doc, name, v));
    assert Lead(doc.open, name) + Printed(v) == Printed(v);
  }

  lemma NothingOpen(doc: Document)
    requires doc.open == []
    ensures DocumentText(doc) == ValuesText(doc.values, |doc.values|)
  {
  }

  lemma AddedInside(doc: Document, name: string, v: Value)
    requires doc.open != []
    ensures var open := Added(doc, name, v).open;
            OpenText(open, |open|) == OpenText(doc.open, |doc.open|) + (Lead(doc.open, name) + Printed(v))
  {
    var n := |doc.open|;
    var outer, last := doc.open[..n - 1], doc.open[n - 1];
    assert doc.open == outer + [last];
    AddedTo(outer, last, name, v, Printed(v));
  }

  lemma AddedTo(outer: seq<Frame>, last: Frame, name: string, v: Value, text: string)
    requires text == Printed(v)
    ensures var item := Item(if last.named then name else "", v);
            OpenText(outer + [last.(items := last.items + [item])], |outer| + 1)
            == OpenText(outer + [last], |outer| + 1) + (Lead(outer + [last], name) + text)
  {
    ItemAddedText(outer, last, Item(if last.named then name else "", v));
    LeadOfItem(outer + [last], name, v);
  }

  lemma Concat(a: string, b: string, c: string)
    ensures a + (b + c) == a + b + c
  {
  }

  lemma LeadOfItem(open: seq<Frame>, name: string, v: Value)
    requires open != []
    ensures var last := open[|open| - 1];
            Comma(|last.items| + 1) + PrintedItem(last.named, Item(if last.named then name else "", v))
            == Lead(open, name) + Printed(v)
  {
    var last := open[|open| - 1];
    Concat(Comma(|last.items| + 1), Named(last.named, name), Printed(v));
  }

  lemma NoItems(open: seq<Frame>, frame: Frame)
    requires frame.items == []
    ensures ItemsText(frame) == ""
    ensures OpenText(open, |open|) + Lead(open, frame.name) + [Open(frame.named)] + ItemsText(frame)
         == OpenText(open, |open|) + Lead(open, frame.name) + [Open(frame.named)]
  {
  }

  lemma BegunText(doc: Document, name: string, named: bool)
    ensures DocumentText(Begun(doc, name, named)) == DocumentText(doc) + Lead(doc.open, name) + [Open(named)]
  {
    var frame := Frame(named, name, []);
    LastFrameText(doc.open, frame);
    NoItems(doc.open, frame);
    Regroup(ValuesText(doc.values, |doc.values|), OpenText(doc.open, |doc.open|), Lead(doc.open, name), [Open(named)]);
  }

  lemma EndedText(doc: Document)
    requires doc.open != []
    ensures DocumentText(Ended(doc)) == DocumentText(doc) + [Close(doc.open[|doc.open| - 1].named)]
  {
    var n := |doc.open|;
    var outer, last := doc.open[..n - 1], doc.open[n - 1];
    assert doc.open == outer + [last];
    AddedText(doc.(open := outer), last.name, Container(last.named, last.items));
    LastFrameText(outer, last);
    EndText(ValuesText(doc.values, |doc.values|), OpenText(outer, |outer|), Lead(outer, last.name), [Open(last.named)],
            ItemsText(last), [Close(last.named)]);
  }

  lemma EndText(a: string, b: string, c: string, d: string, e: string, f: string)
    ensures a + b + (c + (d + e + f)) == a + (b + c + d + e) + f
  {
    Concat(a + b, c, d + e + f);
    Concat(a, b, c);
    Regroup(a + (b + c), d, e, f);
    Concat(a, b + c, d);
    Concat(a, b + c + d, e);
  }

  // The text is that of one value, and of nothing else
  predicate Means(s: string, v: Value) {
    var r := ReadValue(s, 0);
    r.Some? && r.value.0 == v && r.value.1 == |s|
  }

  // A single value is written so that it is read back as what it is
  lemma DocumentRoundTrip(doc: Document, v: Value)
    requires PlainDocument(doc) && doc == Document([v], [])
    ensures Means(DocumentText(doc), v)
  {
    assert Plain(doc.values[0]);
    assert ValuesText(doc.values, 0) == "";
    assert DocumentText(doc) == Printed(v);
    ValueRoundTrip(DocumentText(doc), 0, v);
  }

  ghost predicate Written(s: string, doc: Document) { s == DocumentText(doc) && PlainDocument(doc) }

  lemma WrittenAdded(s: string, doc: Document, name: string, v: Value)
    requires Written(s, doc) && Plain(v)
    ensures Written(s + Lead(doc.open, name) + Printed(v), Added(doc, name, v))
  {
    AddedText(doc, name, v);
    AddedPlain(doc, name, v);
    Concat(s, Lead(doc.open, name), Printed(v));
  }

  lemma WrittenBegun(s: string, doc: Document, name: string, named: bool)
    requires Written(s, doc)
    ensures Written(s + Lead(doc.open, name) + [Open(named)], Begun(doc, name, named))
  {
    BegunText(doc, name, named);
  }

  lemma WrittenEnded(s: string, doc: Document)
    requires Written(s, doc) && doc.open != []
    ensures Written(s + [Close(doc.open[|doc.open| - 1].named)], Ended(doc))
  {
    EndedText(doc);
    EndedPlain(doc);
  }

  // ---------------------------------------------------------------- the writer

  // sizeof( json->first )
  const MAX_DEPTH: nat := 16

  lemma LeadText(start: string, open: seq<Frame>, name: string, file: string)
    requires open == [] ==> file == start
    requires open != [] ==> var last := open[|open| - 1];
                            var s := if last.items == [] then start else start + ",";
                            file == if last.named then s + Quoted(name) + ":" else s
    ensures file == start + Lead(open, name)
  {
    if open != [] {
      var last := open[|open| - 1];
      Concat(start, Comma(|last.items| + 1), Named(last.named, name));
      assert start + "" == start;
      var s := start + Comma(|last.items| + 1);
      if last.named { Concat(s, Quoted(name), ":"); } else { assert s + "" == s; }
    }
  }

  class Writer {
    var file: string
    const first: array<bool>
    const isObject: array<bool>
    var depth: nat
    var error: bool

    ghost var doc: Document          // what has been written, as long as there was no error

    ghost predicate Valid()
      reads this, first, isObject
    {
      Shape() && (!error ==> Written(file, doc) && Flags(doc.open))
    }

    ghost predicate Shape()
      reads this
    {
      first != isObject && first.Length == isObject.Length == MAX_DEPTH && depth <= MAX_DEPTH
    }

    // What the arrays say about the containers that are open
    ghost predicate Flags(open: seq<Frame>)
      requires first.Length == isObject.Length == MAX_DEPTH
      reads this, first, isObject
    {
      && |open| == depth <= MAX_DEPTH
      && (forall i :: 0 <= i < depth ==> isObject[i] == open[i].named)
      && (forall i :: 0 <= i < depth ==> first[i] == (open[i].items == [] && i == depth - 1))
    }

    // The same, once a value has been announced
    ghost predicate Announced(open: seq<Frame>)
      requires first.Length == isObject.Length == MAX_DEPTH
      reads this, first, isObject
    {
      && |open| == depth <= MAX_DEPTH
      && forall i :: 0 <= i < depth ==> isObject[i] == open[i].named && !first[i]
    }

    // automation_json_init
    constructor ()
      ensures Valid() && !error && doc == Document([], []) && fresh(first) && fresh(isObject)
    {
      file, depth, error, doc := "", 0, false, Document([], []);
      first, isObject := new bool[MAX_DEPTH](_ => false), new bool[MAX_DEPTH](_ => false);
    }

    // string
    method PutString(text: CString)
      modifies this`file
      ensures file == old(file) + Quoted(text)
    {
      ghost var was := file;
      file := file + "\"";
      ghost var start := file;
      assert start == start + Glued(Escapes(text), 0);
      var p := 0;
      while p < |text|
        invariant p <= |text| && file == start + Glued(Escapes(text), p)
      {
        Concat(start, Glued(Escapes(text), p), Escape(text[p]));
        file := file + Escape(text[p]);
        p := p + 1;
      }
      file := file + "\"";
      Regroup(was, ['"'], Glued(Escapes(text), |text|), ['"']);
    }

    // member
    method Member(name: CString)
      requires Shape() && (!error ==> Flags(doc.open))
      modifies this`file, first
      ensures !error ==> file == old(file) + Lead(doc.open, name)
      ensures !error ==> Announced(doc.open)
    {
      ghost var start := file;
      if depth > 0 {
        if !first[depth - 1] { file := file + ","; }
        first[depth - 1] := false;
        if isObject[depth - 1] {
          PutString(name);
          file := file + ":";
        }
      }
      if !error { LeadText(start, doc.open, name, file); }
    }

    // The last step of writing a value
    ghost method Add(name: string, v: Value, was: string)
      requires Shape() && Plain(v)
      requires !error ==> Written(was, doc) && file == was + Lead(doc.open, name) + Printed(v) && Announced(doc.open)
      modifies this`doc
      ensures Valid() && doc == Added(old(doc), name, v)
    {
      if !error {
        WrittenAdded(was, doc, name, v);
        AddedFlags(name, v);
      }
      doc := Added(doc, name, v);
    }

    lemma AddedFlags(name: string, v: Value)
      requires Shape() && Announced(doc.open)
      ensures Flags(Added(doc, name, v).open)
    {
    }

    // automation_json_string
    method String(name: CString, value: CString)
      requires Valid()
      modifies this`file, this`doc, first
      ensures Valid() && doc == Added(old(doc), name, Text(value))
    {
      ghost var was := file;
      Member(name);
      PutString(value);
      Add(name, Text(value), was);
    }

    // automation_json_ulong
    method Ulong(name: CString, value: nat)
      requires Valid()
      modifies this`file, this`doc, first
      ensures Valid() && doc == Added(old(doc), name, Number(value))
    {
      ghost var was := file;
      Member(name);
      file := file + Decimal(value);
      Add(name, Number(value), was);
    }

    // automation_json_boolean
    method Truth(name: CString, value: bool)
      requires Valid()
      modifies this`file, this`doc, first
      ensures Valid() && doc == Added(old(doc), name, Boolean(value))
    {
      ghost var was := file;
      Member(name);
      file := file + if value then "true" else "false";
      Add(name, Boolean(value), was);
    }

    // begin
    method Begin(name: CString, named: bool)
      requires Valid()
      modifies this`file, this`depth, this`error, this`doc, first, isObject
      ensures Valid() && doc == Begun(old(doc), name, named) && error == (old(error) || old(depth) >= 16)
    {
      if !error { WrittenBegun(file, doc, name, named); }
      Member(name);
      if depth >= MAX_DEPTH {
        error := true;
      } else {
        Push(named, doc.open, name);
      }
      doc := Begun(doc, name, named);
    }

    method Push(named: bool, ghost open: seq<Frame>, ghost name: CString)
      requires Shape() && depth < MAX_DEPTH
      modifies this`file, this`depth, first, isObject
      ensures depth == old(depth) + 1 && file == old(file) + [Open(named)]
      ensures old(Announced(open)) ==> Flags(open + [Frame(named, name, [])])
    {
      file := file + [Open(named)];
      first[depth] := true;
      isObject[depth] := named;
      depth := depth + 1;
    }

    // automation_json_end
    method End()
      requires Valid()
      modifies this`file, this`depth, this`error, this`doc
      ensures Valid() && error == (old(error) || old(depth) == 0)
      ensures !error ==> old(doc).open != [] && doc == Ended(old(doc))
    {
      if depth == 0 {
        error := true;
        return;
      }
      if !error {
        WrittenEnded(file, doc);
        EndedFlags();
        doc := Ended(doc);
      }
      depth := depth - 1;
      file := file + [Close(isObject[depth])];
    }

    // The containers left open, when the innermost is ended, are those marked so already
    lemma EndedFlags()
      requires first.Length == isObject.Length == MAX_DEPTH && depth > 0 && Flags(doc.open)
      ensures var open := Ended(doc).open;
              && |open| == depth - 1
              && (forall i :: 0 <= i < depth - 1 ==> isObject[i] == open[i].named && !first[i])
              && (depth > 1 ==> open[depth - 2].items != [])
    {
    }

    // automation_json_error. When it reports none, every container begun has been ended, and
    // a document of one value is read back as that value.
    method Error() returns (failed: bool)
      requires Valid()
      ensures failed == (error || depth != 0)
      ensures !failed ==> doc.open == [] && Written(file, doc)
      ensures !failed && |doc.values| == 1 ==> Means(file, doc.values[0])
    {
      failed := error || depth != 0;
      if !failed && |doc.values| == 1 {
        assert doc == Document([doc.values[0]], []);
        DocumentRoundTrip(doc, doc.values[0]);
      }
    }
  }
}
