/**
 JSON trees, their compact rendering, and a reader of the JSON grammar
 (sections 2 to 7 of RFC 8259). Number tokens are opaque: a token is any run of
 number characters that starts with a digit or a minus sign.
 */
module Json {
  import opened Hexadecimal
  import opened Wrappers

  datatype Field = Field(key: string, value: Value)

  /** An object keeps its entries in order and may repeat a key; maps are the trees with `Distinct`. */
  datatype Value =
    | Null
    | Bool(b: bool)
    | Num(token: string)
    | Str(s: string)
    | Arr(items: seq<Value>)
    | Obj(fields: seq<Field>)

  predicate NumChar(c: char)
  {
    '0' <= c <= '9' || c == '+' || c == '-' || c == '.' || c == 'e' || c == 'E'
  }

  predicate NumToken(t: string)
  {
    t != "" && (t[0] == '-' || '0' <= t[0] <= '9') && (forall i :: 0 <= i < |t| ==> NumChar(t[i]))
  }

  predicate Tokens(v: Value)
  {
    match v
    case Num(t) => NumToken(t)
    case Arr(items) => forall i :: 0 <= i < |items| ==> Tokens(items[i])
    case Obj(fields) => forall i :: 0 <= i < |fields| ==> Tokens(fields[i].value)
    case _ => true
  }

  predicate DistinctKeys(fields: seq<Field>)
  {
    forall i, j :: 0 <= i < j < |fields| ==> fields[i].key != fields[j].key
  }

  /** No object anywhere in the tree repeats a key. */
  predicate Distinct(v: Value)
  {
    match v
    case Arr(items) => forall i :: 0 <= i < |items| ==> Distinct(items[i])
    case Obj(fields) => DistinctKeys(fields) && forall i :: 0 <= i < |fields| ==> Distinct(fields[i].value)
    case _ => true
  }

  /** The value under a key; the first one where a key repeats. */
  function Lookup(fields: seq<Field>, key: string): (v: Option<Value>)
  {
    if fields == [] then None
    else if fields[0].key == key then Some(fields[0].value)
    else Lookup(fields[1..], key)
  }

  lemma {:induction false} LookupFound(fields: seq<Field>, i: nat)
    requires DistinctKeys(fields) && i < |fields|
    ensures Lookup(fields, fields[i].key) == Some(fields[i].value)
  {
    if i > 0 {
      LookupFound(fields[1..], i - 1);
    }
  }

  lemma {:induction false} LookupHolds(fields: seq<Field>, key: string)
    requires Lookup(fields, key).Some?
    ensures exists i :: 0 <= i < |fields| && fields[i].value == Lookup(fields, key).value
  {
    if fields[0].key != key {
      LookupHolds(fields[1..], key);
      var i :| 0 <= i < |fields[1..]| && fields[1..][i].value == Lookup(fields[1..], key).value;
      assert fields[i + 1] == fields[1..][i];
    }
  }

  // ---------- Subtrees ----------

  function Child(v: Value, i: nat): (c: Option<Value>)
    ensures c.Some? ==> c.value < v
  {
    match v
    case Arr(items) => if i < |items| then Some(items[i]) else None
    case Obj(fields) => if i < |fields| then Some(fields[i].value) else None
    case _ => None
  }

  /** The subtree a path of child numbers leads to. */
  function Sub(v: Value, path: seq<nat>): (r: Option<Value>)
    decreases |path|
  {
    if path == [] then Some(v)
    else
      var child := Child(v, path[0]);
      if child.None? then None else Sub(child.value, path[1..])
  }

  lemma SubStep(v: Value, i: nat, path: seq<nat>)
    requires Child(v, i).Some?
    ensures Sub(v, [i] + path) == Sub(Child(v, i).value, path)
  {
    assert ([i] + path)[1..] == path;
  }

  // ---------- Rendering ----------

  function EscapeChar(c: char): (r: string)
    ensures r != ""
  {
    match c
    case '\"' => "\\\""
    case '\\' => "\\\\"
    case '\U{8}' => "\\b"
    case '\U{C}' => "\\f"
    case '\n' => "\\n"
    case '\r' => "\\r"
    case '\t' => "\\t"
    case _ =>
      if c as int < 0x20 then ['\\', 'u', '0', '0', HexChar(c as int / 16), HexChar(c as int % 16)]
      else [c]
  }

  function Escape(s: string): (r: string)
  {
    if s == "" then "" else EscapeChar(s[0]) + Escape(s[1..])
  }

  function Render(v: Value): (r: string)
    decreases v, 1
  {
    match v
    case Null => "null"
    case Bool(b) => if b then "true" else "false"
    case Num(t) => t
    case Str(s) => "\"" + Escape(s) + "\""
    case Arr(items) => "[" + RenderItems(items) + "]"
    case Obj(fields) => "{" + RenderFields(fields) + "}"
  }

  function RenderItems(items: seq<Value>): (r: string)
    decreases items, 0
  {
    if items == [] then ""
    else if |items| == 1 then Render(items[0])
    else Render(items[0]) + "," + RenderItems(items[1..])
  }

  function RenderField(f: Field): (r: string)
    ensures r != "" && r[0] == '\"'
    decreases f, 2
  {
    "\"" + Escape(f.key) + "\":" + Render(f.value)
  }

  function RenderFields(fields: seq<Field>): (r: string)
    decreases fields, 0
  {
    if fields == [] then ""
    else if |fields| == 1 then RenderField(fields[0])
    else RenderField(fields[0]) + "," + RenderFields(fields[1..])
  }

  // ---------- Reading ----------

  predicate Whitespace(c: char)
  {
    c == ' ' || c == '\t' || c == '\n' || c == '\r'
  }

  function SkipWs(t: string): (r: string)
    ensures |r| <= |t|
  {
    if t != "" && Whitespace(t[0]) then SkipWs(t[1..]) else t
  }

  function HexVal(c: char): (d: int)
    ensures -1 <= d < 16
  {
    if '0' <= c <= '9' then c as int - '0' as int
    else if 'a' <= c <= 'f' then c as int - 'a' as int + 10
    else if 'A' <= c <= 'F' then c as int - 'A' as int + 10
    else -1
  }

  function HexQuad(t: string): (r: Option<int>)
    ensures r.Some? ==> |t| >= 4 && 0 <= r.value < 0x10000
  {
    if |t| < 4 || HexVal(t[0]) < 0 || HexVal(t[1]) < 0 || HexVal(t[2]) < 0 || HexVal(t[3]) < 0 then None
    else Some(HexVal(t[0]) * 4096 + HexVal(t[1]) * 256 + HexVal(t[2]) * 16 + HexVal(t[3]))
  }

  /** The text after `\u`: one scalar, or a surrogate pair spelled as two escapes. */
  function ReadUnicode(t: string): (r: Option<(char, string)>)
    ensures r.Some? ==> |r.value.1| < |t|
  {
    var first := HexQuad(t);
    if first.None? then None
    else if 0xD800 <= first.value <= 0xDBFF then
      if |t| < 6 || t[4] != '\\' || t[5] != 'u' then None
      else
        var second := HexQuad(t[6..]);
        if second.None? || !(0xDC00 <= second.value <= 0xDFFF) then None
        else Some((((first.value - 0xD800) * 0x400 + (second.value - 0xDC00) + 0x10000) as char, t[10..]))
    else if 0xDC00 <= first.value <= 0xDFFF then None
    else Some((first.value as char, t[4..]))
  }

  /** The text after a backslash. */
  function ReadEscape(t: string): (r: Option<(char, string)>)
    ensures r.Some? ==> |r.value.1| < |t|
  {
    if t == "" then None
    else match t[0]
      case '\"' => Some(('\"', t[1..]))
      case '\\' => Some(('\\', t[1..]))
      case '/' => Some(('/', t[1..]))
      case 'b' => Some(('\U{8}', t[1..]))
      case 'f' => Some(('\U{C}', t[1..]))
      case 'n' => Some(('\n', t[1..]))
      case 'r' => Some(('\r', t[1..]))
      case 't' => Some(('\t', t[1..]))
      case 'u' => ReadUnicode(t[1..])
      case _ => None
  }

  /** The text after an opening quote, up to and including the closing one. */
  function ReadString(t: string): (r: Option<(string, string)>)
    ensures r.Some? ==> |r.value.1| < |t|
    decreases |t|
  {
    if t == "" then None
    else if t[0] == '\"' then Some(("", t[1..]))
    else
      var one := if t[0] == '\\' then ReadEscape(t[1..])
                 else if t[0] as int < 0x20 then None
                 else Some((t[0], t[1..]));
      if one.None? then None
      else
        var more := ReadString(one.value.1);
        if more.None? then None else Some(([one.value.0] + more.value.0, more.value.1))
  }

  function NumLength(t: string): (n: nat)
    ensures n <= |t|
  {
    if t == "" || !NumChar(t[0]) then 0 else 1 + NumLength(t[1..])
  }

  function ReadValue(text: string): (r: Option<(Value, string)>)
    ensures r.Some? ==> |r.value.1| < |text|
    decreases |text|, 1
  {
    var t := SkipWs(text);
    if t == "" then None
    else if t[0] == '\"' then
      var s := ReadString(t[1..]);
      if s.None? then None else Some((Str(s.value.0), s.value.1))
    else if t[0] == '[' then
      var inner := SkipWs(t[1..]);
      if inner != "" && inner[0] == ']' then Some((Arr([]), inner[1..]))
      else
        var items := ReadItems(t[1..]);
        if items.None? then None else Some((Arr(items.value.0), items.value.1))
    else if t[0] == '{' then
      var inner := SkipWs(t[1..]);
      if inner != "" && inner[0] == '}' then Some((Obj([]), inner[1..]))
      else
        var fields := ReadFields(t[1..]);
        if fields.None? then None else Some((Obj(fields.value.0), fields.value.1))
    else if t[0] == '-' || '0' <= t[0] <= '9' then
      var n := NumLength(t);
      Some((Num(t[..n]), t[n..]))
    else if "null" <= t then Some((Null, t[4..]))
    else if "true" <= t then Some((Bool(true), t[4..]))
    else if "false" <= t then Some((Bool(false), t[5..]))
    else None
  }

  function ReadItems(text: string): (r: Option<(seq<Value>, string)>)
    ensures r.Some? ==> |r.value.1| < |text|
    decreases |text|, 2
  {
    var first := ReadValue(text);
    if first.None? then None
    else
      var t := SkipWs(first.value.1);
      if t == "" then None
      else if t[0] == ']' then Some(([first.value.0], t[1..]))
      else if t[0] == ',' then
        var more := ReadItems(t[1..]);
        if more.None? then None else Some(([first.value.0] + more.value.0, more.value.1))
      else None
  }

  function ReadField(text: string): (r: Option<(Field, string)>)
    ensures r.Some? ==> |r.value.1| < |text|
    decreases |text|, 0
  {
    var t := SkipWs(text);
    if t == "" || t[0] != '\"' then None
    else
      var key := ReadString(t[1..]);
      if key.None? then None
      else
        var u := SkipWs(key.value.1);
        if u == "" || u[0] != ':' then None
        else
          var value := ReadValue(u[1..]);
          if value.None? then None else Some((Field(key.value.0, value.value.0), value.value.1))
  }

  function ReadFields(text: string): (r: Option<(seq<Field>, string)>)
    ensures r.Some? ==> |r.value.1| < |text|
    decreases |text|, 2
  {
    var first := ReadField(text);
    if first.None? then None
    else
      var t := SkipWs(first.value.1);
      if t == "" then None
      else if t[0] == '}' then Some(([first.value.0], t[1..]))
      else if t[0] == ',' then
        var more := ReadFields(t[1..]);
        if more.None? then None else Some(([first.value.0] + more.value.0, more.value.1))
      else None
  }

  /** A whole document. */
  function Parse(text: string): (r: Option<Value>)
  {
    var v := ReadValue(text);
    if v.Some? && SkipWs(v.value.1) == "" then Some(v.value.0) else None
  }

  // ---------- Reading back what was rendered ----------

  lemma ReadEscapedChar(c: char, rest: string)
    ensures var t := EscapeChar(c) + rest;
            t[0] != '\"' && t[0] as int >= 0x20
            && (if t[0] == '\\' then ReadEscape(t[1..]) else Some((t[0], t[1..]))) == Some((c, rest))
  {
    var e := EscapeChar(c);
    var t := e + rest;
    assert t[1..] == e[1..] + rest;
    if |e| == 6 {
      assert t[2..] == t[1..][1..];
      assert t[2..][4..] == rest;
      assert t[2..][0] == '0' && t[2..][1] == '0';
      assert HexVal(e[4]) == c as int / 16 && HexVal(e[5]) == c as int % 16;
      assert t[2..][2] == e[4] && t[2..][3] == e[5];
      assert HexQuad(t[2..]) == Some(c as int);
    } else if |e| == 2 {
      assert t[1..][1..] == rest;
    }
  }

  lemma {:induction false} ReadEscaped(s: string, rest: string)
    ensures ReadString(Escape(s) + "\"" + rest) == Some((s, rest))
  {
    hide EscapeChar, ReadEscape;
    if s == "" {
      assert (Escape(s) + "\"" + rest)[1..] == rest;
    } else {
      var tail := Escape(s[1..]) + "\"" + rest;
      assert Escape(s) + "\"" + rest == EscapeChar(s[0]) + tail;
      ReadEscapedChar(s[0], tail);
      ReadEscaped(s[1..], rest);
      assert s == [s[0]] + s[1..];
    }
  }

  /** Text that cannot extend a number token. */
  predicate Delimited(rest: string)
  {
    rest == "" || !NumChar(rest[0])
  }

  lemma {:induction false} NumLengthOfToken(t: string, rest: string)
    requires forall i :: 0 <= i < |t| ==> NumChar(t[i])
    requires Delimited(rest)
    ensures NumLength(t + rest) == |t|
  {
    if t == "" {
      assert t + rest == rest;
    } else {
      assert (t + rest)[1..] == t[1..] + rest;
      NumLengthOfToken(t[1..], rest);
    }
  }

  lemma RenderStarts(v: Value)
    requires Tokens(v)
    ensures Render(v) != ""
    ensures var c := Render(v)[0]; !Whitespace(c) && c != ']' && c != '}'
  {
  }

  /** Reading undoes rendering, whatever delimited text follows. */
  lemma {:induction false} ReadRendered(v: Value, rest: string)
    requires Tokens(v) && Delimited(rest)
    ensures ReadValue(Render(v) + rest) == Some((v, rest))
    decreases v, 1
  {
    hide ReadString, Escape, ReadItems, ReadFields, RenderItems, RenderFields, NumLength;
    var t := Render(v) + rest;
    RenderStarts(v);
    assert t[0] == Render(v)[0];
    match v {
      case Null => assert t[4..] == rest;
      case Bool(b) => assert if b then t[4..] == rest else t[5..] == rest;
      case Num(token) =>
        NumLengthOfToken(token, rest);
        assert t[..|token|] == token && t[|token|..] == rest;
      case Str(s) =>
        ReadEscaped(s, rest);
        assert t[1..] == Escape(s) + "\"" + rest;
      case Arr(items) => ReadRenderedArray(items, rest);
      case Obj(fields) => ReadRenderedObject(fields, rest);
    }
  }

  lemma {:induction false} ReadRenderedArray(items: seq<Value>, rest: string)
    requires forall i :: 0 <= i < |items| ==> Tokens(items[i])
    ensures ReadValue(Render(Arr(items)) + rest) == Some((Arr(items), rest))
    decreases items, 1
  {
    hide ReadFields, ReadItems, ReadString, NumLength;
    var t := Render(Arr(items)) + rest;
    if items == [] {
      assert t[1..] == "]" + rest;
      assert (t[1..])[1..] == rest;
    } else {
      var inner := RenderItems(items) + "]" + rest;
      assert t[1..] == inner;
      RenderStarts(items[0]);
      assert inner[0] == Render(items[0])[0];
      ReadRenderedItems(items, rest);
    }
  }

  lemma {:induction false} ReadRenderedObject(fields: seq<Field>, rest: string)
    requires forall i :: 0 <= i < |fields| ==> Tokens(fields[i].value)
    ensures ReadValue(Render(Obj(fields)) + rest) == Some((Obj(fields), rest))
    decreases fields, 1
  {
    hide ReadFields, ReadItems, ReadString, NumLength, RenderField, Tokens;
    var t := Render(Obj(fields)) + rest;
    if fields == [] {
      assert t[1..] == "}" + rest;
      assert (t[1..])[1..] == rest;
    } else {
      var inner := RenderFields(fields) + "}" + rest;
      assert t[1..] == inner;
      assert RenderFields(fields)[0] == '\"';
      ReadRenderedFields(fields, rest);
    }
  }

  lemma {:induction false} ReadRenderedItems(items: seq<Value>, rest: string)
    requires items != [] && forall i :: 0 <= i < |items| ==> Tokens(items[i])
    ensures ReadItems(RenderItems(items) + "]" + rest) == Some((items, rest))
    decreases items, 0
  {
    hide ReadValue, Render, Tokens;
    var text := RenderItems(items) + "]" + rest;
    if |items| == 1 {
      var after := "]" + rest;
      assert text == Render(items[0]) + after;
      ReadRendered(items[0], after);
      assert after[1..] == rest;
      assert items == [items[0]];
    } else {
      var tail := RenderItems(items[1..]) + "]" + rest;
      var after := "," + tail;
      assert text == Render(items[0]) + after;
      ReadRendered(items[0], after);
      assert after[1..] == tail;
      ReadRenderedItems(items[1..], rest);
      assert items == [items[0]] + items[1..];
    }
  }

  lemma {:induction false} ReadRenderedField(f: Field, rest: string)
    requires Tokens(f.value) && Delimited(rest)
    ensures ReadField(RenderField(f) + rest) == Some((f, rest))
    decreases f, 2
  {
    hide ReadValue, ReadString, Render, Escape, Tokens;
    var t := RenderField(f) + rest;
    var after := ":" + (Render(f.value) + rest);
    assert t[1..] == Escape(f.key) + "\"" + after;
    ReadEscaped(f.key, after);
    assert after[1..] == Render(f.value) + rest;
    ReadRendered(f.value, rest);
  }

  lemma {:induction false} ReadRenderedFields(fields: seq<Field>, rest: string)
    requires fields != [] && forall i :: 0 <= i < |fields| ==> Tokens(fields[i].value)
    ensures ReadFields(RenderFields(fields) + "}" + rest) == Some((fields, rest))
    decreases fields, 0
  {
    hide RenderField, ReadField, Tokens;
    var text := RenderFields(fields) + "}" + rest;
    if |fields| == 1 {
      var after := "}" + rest;
      assert text == RenderField(fields[0]) + after;
      ReadRenderedField(fields[0], after);
      assert after[1..] == rest;
      assert fields == [fields[0]];
    } else {
      var tail := RenderFields(fields[1..]) + "}" + rest;
      var after := "," + tail;
      assert text == RenderField(fields[0]) + after;
      ReadRenderedField(fields[0], after);
      assert after[1..] == tail;
      ReadRenderedFields(fields[1..], rest);
      assert fields == [fields[0]] + fields[1..];
    }
  }

  /** Parsing a rendered tree gives the tree back, repeated keys and all. */
  lemma ParseRendered(v: Value)
    requires Tokens(v)
    ensures Parse(Render(v)) == Some(v)
  {
    ReadRendered(v, "");
    assert Render(v) + "" == Render(v);
  }

  // ---------- Nothing shorter reads the same ----------

  /** One scalar of a string, plain or escaped, takes at least as much text as its own escape. */
  lemma ScalarAtLeast(t: string)
    requires t != "" && t[0] != '\"'
    ensures var one := if t[0] == '\\' then ReadEscape(t[1..])
                       else if t[0] as int < 0x20 then None
                       else Some((t[0], t[1..]));
            one.Some? ==> |EscapeChar(one.value.0)| <= |t| - |one.value.1|
  {
    if t[0] == '\\' && |t| > 1 && t[1] == 'u' {
      assert t[1..][1..] == t[2..];
    }
  }

  lemma {:induction false} StringAtLeast(t: string)
    requires ReadString(t).Some?
    ensures |Escape(ReadString(t).value.0)| + 1 <= |t| - |ReadString(t).value.1|
    decreases |t|
  {
    hide EscapeChar, ReadEscape;
    if t[0] != '\"' {
      ScalarAtLeast(t);
      var one := if t[0] == '\\' then ReadEscape(t[1..]) else Some((t[0], t[1..]));
      StringAtLeast(one.value.1);
      var s := ReadString(t).value.0;
      assert s[1..] == ReadString(one.value.1).value.0;
    }
  }

  lemma {:induction false} ValueAtLeast(text: string)
    requires ReadValue(text).Some?
    ensures |Render(ReadValue(text).value.0)| <= |text| - |ReadValue(text).value.1|
    decreases |text|, 1
  {
    hide ReadString, Escape, NumLength, ReadItems, ReadFields, RenderItems, RenderFields;
    var t := SkipWs(text);
    if t[0] == '\"' {
      StringAtLeast(t[1..]);
    } else if t[0] == '[' {
      NothingRendered();
      var inner := SkipWs(t[1..]);
      if !(inner != "" && inner[0] == ']') {
        ItemsAtLeast(t[1..]);
      }
    } else if t[0] == '{' {
      NothingRendered();
      var inner := SkipWs(t[1..]);
      if !(inner != "" && inner[0] == '}') {
        FieldsAtLeast(t[1..]);
      }
    }
  }

  lemma NothingRendered()
    ensures RenderItems([]) == "" && RenderFields([]) == ""
  {
  }

  lemma {:induction false} ItemsAtLeast(text: string)
    requires ReadItems(text).Some?
    ensures var (items, rest) := ReadItems(text).value;
            items != [] && |RenderItems(items)| + 1 <= |text| - |rest|
    decreases |text|, 2
  {
    hide ReadValue, Render;
    ValueAtLeast(text);
    var t := SkipWs(ReadValue(text).value.1);
    if t[0] == ',' {
      ItemsAtLeast(t[1..]);
      assert ReadItems(text).value.0[1..] == ReadItems(t[1..]).value.0;
    }
  }

  lemma {:induction false} FieldAtLeast(text: string)
    requires ReadField(text).Some?
    ensures |RenderField(ReadField(text).value.0)| <= |text| - |ReadField(text).value.1|
    decreases |text|, 0
  {
    hide ReadValue, Render, ReadString, Escape;
    var t := SkipWs(text);
    StringAtLeast(t[1..]);
    var u := SkipWs(ReadString(t[1..]).value.1);
    ValueAtLeast(u[1..]);
  }

  lemma {:induction false} FieldsAtLeast(text: string)
    requires ReadFields(text).Some?
    ensures var (fields, rest) := ReadFields(text).value;
            fields != [] && |RenderFields(fields)| + 1 <= |text| - |rest|
    decreases |text|, 2
  {
    hide ReadField, RenderField;
    FieldAtLeast(text);
    var t := SkipWs(ReadField(text).value.1);
    if t[0] == ',' {
      FieldsAtLeast(t[1..]);
      assert ReadFields(text).value.0[1..] == ReadFields(t[1..]).value.0;
    }
  }

  /** The rendering of a tree is a shortest text that parses to it. */
  lemma RenderedIsShortest(v: Value, t: string)
    requires Parse(t) == Some(v)
    ensures |Render(v)| <= |t|
  {
    ValueAtLeast(t);
  }

  /** A control character without a short escape is spelled `\u00` and two lowercase digits. */
  lemma EscapeIsLowercase(c: char)
    ensures var e := EscapeChar(c);
            |e| <= 2 || (|e| == 6 && e[..4] == "\\u00" && AllHex(e[4..])
                         && HexVal(e[4]) * 16 + HexVal(e[5]) == c as int)
  {
  }
}
