/**
 The lead identity: which anchors are admitted, and the NUL-joined frame of family,
 anchor and optional instance that is hashed. Unicode normalization, lower-casing and
 category tables are parameters.
 */
module LeadIdentity {
  import opened Bytes
  import opened Search
  import opened TextLines
  import opened Wrappers

  const NUL := '\0'

  // "lead-identity-v1"
  const DOMAIN: seq<u8> := [108, 101, 97, 100, 45, 105, 100, 101, 110, 116, 105, 116, 121, 45, 118, 49]

  // ---------- The frame ----------

  function Piece(instance: Option<string>): (s: string)
  {
    if instance.Some? then instance.value else ""
  }

  function FrameBytes(family: string, anchor: string, instance: Option<string>): (r: seq<u8>)
  {
    DOMAIN + ([0] + Utf8(family)) + ([0] + Utf8(anchor)) + ([0] + Utf8(Piece(instance)))
  }

  method Frame(family: string, anchor: string, instance: Option<string>) returns (bytes: seq<u8>)
    ensures bytes == FrameBytes(family, anchor, instance)
  {
    hide Utf8;
    var pieces := [family, anchor, Piece(instance)];
    bytes := DOMAIN;
    var i := 0;
    while i < 3
      invariant 0 <= i <= 3
      invariant i == 0 ==> bytes == DOMAIN
      invariant i == 1 ==> bytes == DOMAIN + ([0] + Utf8(family))
      invariant i == 2 ==> bytes == DOMAIN + ([0] + Utf8(family)) + ([0] + Utf8(anchor))
      invariant i == 3 ==> bytes == FrameBytes(family, anchor, instance)
    {
      bytes := bytes + ([0] + Utf8(pieces[i]));
      i := i + 1;
    }
  }

  predicate NulFree(s: string)
  {
    forall i :: 0 <= i < |s| ==> s[i] != NUL
  }

  lemma {:induction false} Utf8NulFree(s: string)
    requires NulFree(s)
    ensures 0 !in Utf8(s)
  {
    if s != "" {
      Utf8NulFree(s[1..]);
      assert s[0] != NUL;
      assert s[0] as int != 0;
    }
  }

  function NulAt(s: seq<u8>): (n: nat)
  {
    if s == [] || s[0] == 0 then 0 else 1 + NulAt(s[1..])
  }

  lemma {:induction false} NulAfter(a: seq<u8>, x: seq<u8>)
    requires 0 !in a
    ensures NulAt(a + ([0] + x)) == |a|
  {
    var s := a + ([0] + x);
    if a != [] {
      assert a[0] in a;
      assert s[1..] == a[1..] + ([0] + x);
      NulAfter(a[1..], x);
    }
  }

  /** The first NUL tells where a NUL-free prefix ends. */
  lemma FirstNul(a: seq<u8>, x: seq<u8>, b: seq<u8>, y: seq<u8>)
    requires 0 !in a && 0 !in b && a + ([0] + x) == b + ([0] + y)
    ensures a == b && x == y
  {
    NulAfter(a, x);
    NulAfter(b, y);
    SplitEqual(a, [0] + x, b, [0] + y);
    SplitEqual([0], x, [0], y);
  }

  lemma FrameNested(f: string, a: string, i: Option<string>)
    ensures FrameBytes(f, a, i)
            == DOMAIN + ([0] + (Utf8(f) + ([0] + (Utf8(a) + ([0] + Utf8(Piece(i)))))))
  {
    hide Utf8;
    var x, y, z := [0] + Utf8(f), [0] + Utf8(a), [0] + Utf8(Piece(i));
    ConcatAssoc(DOMAIN + x, y, z);
    ConcatAssoc(DOMAIN, x, y + z);
    ConcatAssoc([0], Utf8(a), z);
    ConcatAssoc([0], Utf8(f), y + z);
  }

  /** On NUL-free parts, frames agree exactly when the parts do, an absent instance reading as empty. */
  lemma FrameIdentity(f: string, a: string, i: Option<string>, g: string, b: string, j: Option<string>)
    requires NulFree(f) && NulFree(a) && NulFree(Piece(i)) && NulFree(g) && NulFree(b) && NulFree(Piece(j))
    ensures FrameBytes(f, a, i) == FrameBytes(g, b, j) <==> f == g && a == b && Piece(i) == Piece(j)
  {
    hide Utf8, FrameBytes;
    FrameNested(f, a, i);
    FrameNested(g, b, j);
    if FrameBytes(f, a, i) == FrameBytes(g, b, j) {
      Utf8NulFree(f);
      Utf8NulFree(a);
      Utf8NulFree(g);
      Utf8NulFree(b);
      var x, y := Utf8(a) + ([0] + Utf8(Piece(i))), Utf8(b) + ([0] + Utf8(Piece(j)));
      SplitEqual(DOMAIN, [0] + (Utf8(f) + ([0] + x)), DOMAIN, [0] + (Utf8(g) + ([0] + y)));
      SplitEqual([0], Utf8(f) + ([0] + x), [0], Utf8(g) + ([0] + y));
      FirstNul(Utf8(f), x, Utf8(g), y);
      FirstNul(Utf8(a), Utf8(Piece(i)), Utf8(b), Utf8(Piece(j)));
      Utf8Injective(f, g);
      Utf8Injective(a, b);
      Utf8Injective(Piece(i), Piece(j));
    }
  }

  // ---------- Transient identifiers ----------

  const KEYWORDS: seq<string> := ["job", "campaign", "generation", "unit", "lead", "finding", "line"]

  predicate Digit(c: char)
  {
    '0' <= c <= '9'
  }

  predicate Word(c: char)
  {
    Digit(c) || 'a' <= c <= 'z' || 'A' <= c <= 'Z' || c == '_'
  }

  predicate Separator(c: char)
  {
    c == ' ' || c == '#' || c == '_' || c == '-'
  }

  /** No word character on the left of `i`. */
  predicate BoundaryBefore(text: string, i: nat)
    requires i <= |text|
  {
    i == 0 || !Word(text[i - 1])
  }

  predicate BoundaryAfter(text: string, i: nat)
    requires i <= |text|
  {
    i == |text| || !Word(text[i])
  }

  /** At `start`: a whole-word keyword, at most one separator, then digits up to a word boundary. */
  ghost predicate TransientAt(text: string, keyword: string, start: int)
  {
    && OccursAt(text, keyword, start)
    && BoundaryBefore(text, start)
    && HasNumber(text, start + |keyword|)
  }

  ghost predicate HasNumber(text: string, k: nat)
  {
    exists d: nat, e: nat :: Numbered(text, k, d, e)
  }

  /** From `k`, at most one separator up to `d`, then the digits `d..e` and a word boundary. */
  predicate Numbered(text: string, k: nat, d: nat, e: nat)
  {
    && k <= d < e <= |text|
    && (d == k || (d == k + 1 && Separator(text[k])))
    && (forall i :: d <= i < e ==> Digit(text[i]))
    && BoundaryAfter(text, e)
  }

  ghost predicate Transient(text: string)
  {
    exists k, start :: 0 <= k < |KEYWORDS| && TransientAt(text, KEYWORDS[k], start)
  }

  method NumberFollows(text: string, k: nat) returns (r: bool)
    requires k <= |text|
    ensures r <==> HasNumber(text, k)
  {
    var end := k;
    if end < |text| && Separator(text[end]) {
      end := end + 1;
    }
    var digits := end;
    while end < |text| && Digit(text[end])
      invariant digits <= end <= |text|
      invariant forall i :: digits <= i < end ==> Digit(text[i])
    {
      end := end + 1;
    }
    r := end > digits && BoundaryAfter(text, end);
    if r {
      assert Numbered(text, k, digits, end);
    }
    forall d: nat, e: nat | Numbered(text, k, d, e) ensures d == digits && e == end {
      assert Digit(text[d]);
    }
  }

  lemma OverlapRepeats(text: string, w: string, i: nat, j: nat)
    requires i <= j < i + |w| && OccursAt(text, w, i) && OccursAt(text, w, j)
    ensures w[j - i] == w[0]
  {
    assert text[i..i + |w|][j - i] == text[j];
    assert text[j..j + |w|][0] == text[j];
  }

  /** A keyword does not hold its first letter again. */
  lemma FirstLetterOnce(k: nat, d: nat)
    requires k < |KEYWORDS| && d < |KEYWORDS[k]| && KEYWORDS[k][d] == KEYWORDS[k][0]
    ensures d == 0
  {
  }

  /** So occurrences of a keyword never overlap, and a search may resume past the last one found. */
  lemma KeywordsDoNotOverlap(text: string, k: nat, i: nat, j: nat)
    requires k < |KEYWORDS| && i <= j && OccursAt(text, KEYWORDS[k], i) && OccursAt(text, KEYWORDS[k], j)
    ensures i == j || i + |KEYWORDS[k]| <= j
  {
    if j < i + |KEYWORDS[k]| {
      OverlapRepeats(text, KEYWORDS[k], i, j);
      FirstLetterOnce(k, j - i);
    }
  }

  /** The scanning loops decide the declarative predicate. */
  method TransientId(text: string) returns (r: bool)
    ensures r <==> Transient(text)
  {
    hide TransientAt;
    var k := 0;
    while k < |KEYWORDS|
      invariant 0 <= k <= |KEYWORDS|
      invariant forall m, s :: 0 <= m < k ==> !TransientAt(text, KEYWORDS[m], s)
    {
      var hit := KeywordHit(text, k);
      if hit {
        return true;
      }
      k := k + 1;
    }
    return false;
  }

  method KeywordHit(text: string, k: nat) returns (r: bool)
    requires k < |KEYWORDS|
    ensures r <==> exists s :: TransientAt(text, KEYWORDS[k], s)
  {
    var keyword := KEYWORDS[k];
    assert keyword != "";
    var from := 0;
    while true
      invariant 0 <= from <= |text|
      invariant forall s :: s < from ==> !TransientAt(text, keyword, s)
      decreases |text| - from
    {
      var start := FirstFrom(text, keyword, from);
      if start.None? {
        assert forall s :: s >= from ==> !OccursAt(text, keyword, s);
        return false;
      }
      var at := start.value;
      if BoundaryBefore(text, at) {
        var numbered := NumberFollows(text, at + |keyword|);
        if numbered {
          assert TransientAt(text, keyword, at);
          return true;
        }
      }
      assert !TransientAt(text, keyword, at);
      forall s | s < at + |keyword| ensures !TransientAt(text, keyword, s) {
        if s >= at && OccursAt(text, keyword, s) {
          KeywordsDoNotOverlap(text, k, at, s);
        }
      }
      from := at + |keyword|;
    }
    return false;
  }

  // ---------- Anchor admission ----------

  /** Unicode tables as functions: normalization, lower-casing, and the characters an anchor may not hold. */
  datatype Unicode = Unicode(nfc: string -> string, lower: string -> string, banned: char -> bool)

  /** NUL is a banned control, and neither normalization nor lower-casing invents one. */
  ghost predicate KeepsNulOut(u: Unicode)
  {
    && u.banned(NUL)
    && (forall s :: NulFree(s) ==> NulFree(u.nfc(s)))
    && (forall s :: NulFree(s) ==> NulFree(u.lower(s)))
  }

  /** Words separated by single spaces: whitespace collapsed, ends trimmed. */
  function Collapsed(s: string): (r: string)
    decreases |s|
  {
    if s == "" then ""
    else if UnicodeWhitespace(s[0]) then
      var rest := TrimStart(s);
      TrimStartShrinks(s);
      if rest == "" then "" else [' '] + Collapsed(rest)
    else [s[0]] + Collapsed(s[1..])
  }

  lemma {:induction false} TrimStartShrinks(s: string)
    ensures |TrimStart(s)| <= |s| && (s != "" && UnicodeWhitespace(s[0]) ==> |TrimStart(s)| < |s|)
    ensures NulFree(s) ==> NulFree(TrimStart(s))
  {
    if s != "" && UnicodeWhitespace(s[0]) {
      TrimStartShrinks(s[1..]);
    }
  }

  lemma {:induction false} CollapsedNulFree(s: string)
    requires NulFree(s)
    ensures NulFree(Collapsed(s))
    decreases |s|
  {
    if s != "" {
      TrimStartShrinks(s);
      if UnicodeWhitespace(s[0]) {
        CollapsedNulFree(TrimStart(s));
      } else {
        CollapsedNulFree(s[1..]);
      }
    }
  }

  predicate AllDigit(s: string)
  {
    forall i :: 0 <= i < |s| ==> Digit(s[i])
  }

  /** `name:123`: a nonempty name, the last colon, and only digits after it. */
  predicate LocationWord(w: string)
  {
    exists k | 0 < k < |w| - 1 :: w[k] == ':' && AllDigit(w[k + 1..])
  }

  predicate HexDigit(c: char)
  {
    Digit(c) || 'a' <= c <= 'f' || 'A' <= c <= 'F'
  }

  predicate HashWord(w: string)
  {
    && 7 <= |w| <= 64
    && (forall i :: 0 <= i < |w| ==> HexDigit(w[i]))
    && (exists i | 0 <= i < |w| :: Digit(w[i]))
  }

  function SplitSpaces(s: string): (words: seq<string>)
    ensures words != []
  {
    if s == "" then [""]
    else
      var rest := SplitSpaces(s[1..]);
      if s[0] == ' ' then [""] + rest else [[s[0]] + rest[0]] + rest[1..]
  }

  /** The normalized text an anchor is compared by. */
  function AnchorText(u: Unicode, raw: string): (s: string)
  {
    u.nfc(TrimStart(Collapsed(u.lower(u.nfc(raw)))))
  }

  method ExpectedAnchor(u: Unicode, raw: string, maxChars: nat, maxBytes: nat) returns (r: Option<string>)
    ensures r.Some? <==>
            var text := AnchorText(u, raw);
            && (forall i :: 0 <= i < |u.nfc(raw)| ==> !u.banned(u.nfc(raw)[i]))
            && text != "" && |Utf8(text)| <= maxBytes && |text| <= maxChars
            && (forall w :: w in SplitSpaces(text) ==> !LocationWord(w) && !HashWord(w))
            && !Transient(text)
    ensures r.Some? ==> r.value == AnchorText(u, raw)
  {
    var nfc := u.nfc(raw);
    if exists i | 0 <= i < |nfc| :: u.banned(nfc[i]) {
      return None;
    }
    var text := AnchorText(u, raw);
    if text == "" || |Utf8(text)| > maxBytes || |text| > maxChars {
      return None;
    }
    var words, i := SplitSpaces(text), 0;
    while i < |words|
      invariant 0 <= i <= |words|
      invariant forall k :: 0 <= k < i ==> !LocationWord(words[k]) && !HashWord(words[k])
    {
      if LocationWord(words[i]) || HashWord(words[i]) {
        return None;
      }
      i := i + 1;
    }
    var transient := TransientId(text);
    return if transient then None else Some(text);
  }

  predicate ValidFamily(s: string)
  {
    3 <= |s| <= 64 && forall i :: 0 <= i < |s| ==> 'a' <= s[i] <= 'z' || Digit(s[i]) || s[i] == '-'
  }

  /** Text that passed anchor admission. */
  ghost predicate AdmittedAnchor(u: Unicode, s: string)
  {
    exists raw :: s == AnchorText(u, raw) && s != "" && Unbanned(u, raw)
  }

  ghost predicate Unbanned(u: Unicode, raw: string)
  {
    forall i :: 0 <= i < |u.nfc(raw)| ==> !u.banned(u.nfc(raw)[i])
  }

  lemma AdmittedIsNulFree(u: Unicode, s: string)
    requires KeepsNulOut(u) && AdmittedAnchor(u, s)
    ensures NulFree(s) && s != ""
  {
    var raw :| s == AnchorText(u, raw) && s != "" && Unbanned(u, raw);
    assert NulFree(u.nfc(raw));
    CollapsedNulFree(u.lower(u.nfc(raw)));
    TrimStartShrinks(Collapsed(u.lower(u.nfc(raw))));
  }

  /** Admitted triples with the same frame are the same triple, absent and present instances told apart. */
  lemma FrameInjective(u: Unicode, f: string, a: string, i: Option<string>, g: string, b: string, j: Option<string>)
    requires KeepsNulOut(u) && ValidFamily(f) && ValidFamily(g) && AdmittedAnchor(u, a) && AdmittedAnchor(u, b)
    requires (i.Some? ==> AdmittedAnchor(u, i.value)) && (j.Some? ==> AdmittedAnchor(u, j.value))
    requires FrameBytes(f, a, i) == FrameBytes(g, b, j)
    ensures f == g && a == b && i == j
  {
    AdmittedIsNulFree(u, a);
    AdmittedIsNulFree(u, b);
    if i.Some? { AdmittedIsNulFree(u, i.value); }
    if j.Some? { AdmittedIsNulFree(u, j.value); }
    FrameIdentity(f, a, i, g, b, j);
  }

  // ---------- Words ----------

  /** The maximal pieces without whitespace. */
  function Words(s: string): (r: seq<string>)
    ensures s != "" && !UnicodeWhitespace(s[0]) ==> r != []
  {
    if s == "" then []
    else if UnicodeWhitespace(s[0]) then Words(s[1..])
    else if |s| == 1 || UnicodeWhitespace(s[1]) then [[s[0]]] + Words(s[1..])
    else
      var rest := Words(s[1..]);
      [[s[0]] + rest[0]] + rest[1..]
  }

  /** Single spaces only, and none at the end. */
  predicate Tidy(s: string)
  {
    && (forall i :: 0 <= i < |s| && UnicodeWhitespace(s[i]) ==> s[i] == ' ')
    && (forall i :: 0 <= i < |s| - 1 && UnicodeWhitespace(s[i]) ==> !UnicodeWhitespace(s[i + 1]))
    && (s != "" ==> !UnicodeWhitespace(s[|s| - 1]))
  }

  lemma {:induction false} TrimKeepsWords(s: string)
    ensures Words(TrimStart(s)) == Words(s)
    ensures TrimStart(s) == "" || !UnicodeWhitespace(TrimStart(s)[0])
  {
    if s != "" && UnicodeWhitespace(s[0]) {
      TrimKeepsWords(s[1..]);
    }
  }

  /** What the collapsed text starts with. */
  lemma CollapsedHead(s: string)
    ensures s == "" ==> Collapsed(s) == ""
    ensures s != "" && !UnicodeWhitespace(s[0]) ==> Collapsed(s) != "" && Collapsed(s)[0] == s[0]
    ensures s != "" && UnicodeWhitespace(s[0]) ==> Collapsed(s) == "" || Collapsed(s)[0] == ' '
  {
    TrimKeepsWords(s);
  }

  lemma {:induction false} CollapsedWords(s: string)
    ensures Words(Collapsed(s)) == Words(s) && Tidy(Collapsed(s))
    decreases |s|
  {
    hide UnicodeWhitespace;
    BlankIsWhite();
    if s != "" {
      TrimKeepsWords(s);
      TrimStartShrinks(s);
      var rest := TrimStart(s);
      if !UnicodeWhitespace(s[0]) {
        CollapsedWords(s[1..]);
        CollapsedHead(s[1..]);
        assert Collapsed(s)[1..] == Collapsed(s[1..]);
        WordsAfter(s[0], s[1..], Collapsed(s[1..]));
        assert s == [s[0]] + s[1..];
        TidyCons(s[0], Collapsed(s[1..]));
      } else if rest != "" {
        CollapsedWords(rest);
        CollapsedHead(rest);
        assert Collapsed(s)[1..] == Collapsed(rest);
        TidyCons(' ', Collapsed(rest));
      }
    }
  }

  lemma BlankIsWhite()
    ensures UnicodeWhitespace(' ')
  {
  }

  lemma WordsAfter(c: char, s: string, t: string)
    requires !UnicodeWhitespace(c) && Words(s) == Words(t)
    requires (s == "" || UnicodeWhitespace(s[0])) ==> (t == "" || UnicodeWhitespace(t[0]))
    requires s != "" && !UnicodeWhitespace(s[0]) ==> t != "" && !UnicodeWhitespace(t[0])
    ensures Words([c] + s) == Words([c] + t)
  {
    hide UnicodeWhitespace;
    assert ([c] + s)[1..] == s && ([c] + t)[1..] == t;
  }

  lemma TidyCons(c: char, t: string)
    requires Tidy(t) && (UnicodeWhitespace(c) ==> c == ' ' && t != "" && !UnicodeWhitespace(t[0]))
    ensures Tidy([c] + t)
  {
    hide UnicodeWhitespace;
    var s := [c] + t;
    assert forall i :: 0 < i < |s| ==> s[i] == t[i - 1];
  }

  /** Pieces put back with single spaces between them. */
  function JoinSpaces(words: seq<string>): (s: string)
    requires words != []
  {
    if |words| == 1 then words[0] else words[0] + " " + JoinSpaces(words[1..])
  }

  /** Splitting at spaces: no piece holds one, and joining the pieces gives the text. */
  lemma {:induction false} SplitSpacesJoins(s: string)
    ensures JoinSpaces(SplitSpaces(s)) == s
    ensures forall w :: w in SplitSpaces(s) ==> ' ' !in w
  {
    if s != "" {
      SplitSpacesJoins(s[1..]);
      var rest := SplitSpaces(s[1..]);
      assert s == [s[0]] + s[1..];
      if s[0] != ' ' && |rest| > 1 {
        var words := [[s[0]] + rest[0]] + rest[1..];
        assert words[1..] == rest[1..];
        assert ([s[0]] + rest[0]) + " " + JoinSpaces(rest[1..]) == [s[0]] + (rest[0] + " " + JoinSpaces(rest[1..]));
      } else if s[0] == ' ' {
        assert ([""] + rest)[1..] == rest;
      }
    }
  }

  /**
   Before its last normalization an anchor is the words of the lower-cased text, the same
   and in the same order, with one space between two of them and none at either end.
   */
  lemma AnchorWords(u: Unicode, raw: string)
    ensures var lower := u.lower(u.nfc(raw));
            exists text :: AnchorText(u, raw) == u.nfc(text) && Words(text) == Words(lower) && Tidy(text)
                           && (text != "" ==> !UnicodeWhitespace(text[0]))
  {
    var lower := u.lower(u.nfc(raw));
    var text := TrimStart(Collapsed(lower));
    CollapsedWords(lower);
    TrimKeepsWords(Collapsed(lower));
    TrimKeepsTidy(Collapsed(lower));
    assert AnchorText(u, raw) == u.nfc(text);
  }

  lemma {:induction false} TrimKeepsTidy(s: string)
    requires Tidy(s)
    ensures Tidy(TrimStart(s))
  {
    hide UnicodeWhitespace;
    if s != "" && UnicodeWhitespace(s[0]) {
      assert Tidy(s[1..]) by {
        assert forall i :: 0 <= i < |s| - 1 ==> s[1..][i] == s[i + 1];
      }
      TrimKeepsTidy(s[1..]);
    }
  }

  // ---------- Reading a frame ----------

  /** The pieces between NUL bytes. */
  function SplitNul(b: seq<u8>): (pieces: seq<seq<u8>>)
    ensures pieces != []
  {
    if b == [] then [[]]
    else
      var rest := SplitNul(b[1..]);
      if b[0] == 0 then [[]] + rest else [[b[0]] + rest[0]] + rest[1..]
  }

  lemma {:induction false} SplitNulAt(a: seq<u8>, rest: seq<u8>)
    requires 0 !in a
    ensures SplitNul(a + ([0] + rest)) == [a] + SplitNul(rest)
  {
    var b := a + ([0] + rest);
    if a == [] {
      assert b[1..] == rest;
    } else {
      assert b[1..] == a[1..] + ([0] + rest);
      SplitNulAt(a[1..], rest);
      assert a == [a[0]] + a[1..];
    }
  }

  lemma {:induction false} SplitNulWhole(a: seq<u8>)
    requires 0 !in a
    ensures SplitNul(a) == [a]
  {
    if a != [] {
      SplitNulWhole(a[1..]);
      assert a == [a[0]] + a[1..];
    }
  }

  /** A frame of NUL-free parts splits into the domain, the family, the anchor and the instance, in that order. */
  lemma FrameReads(f: string, a: string, i: Option<string>)
    requires NulFree(f) && NulFree(a) && NulFree(Piece(i))
    ensures SplitNul(FrameBytes(f, a, i)) == [Utf8("lead-identity-v1"), Utf8(f), Utf8(a), Utf8(Piece(i))]
  {
    hide SplitNul, Utf8, FrameBytes;
    FrameNested(f, a, i);
    Utf8NulFree(f);
    Utf8NulFree(a);
    Utf8NulFree(Piece(i));
    DomainSpells();
    var c := Utf8(Piece(i));
    var b := Utf8(a) + ([0] + c);
    SplitNulAt(DOMAIN, Utf8(f) + ([0] + b));
    SplitNulAt(Utf8(f), b);
    SplitNulAt(Utf8(a), c);
    SplitNulWhole(c);
  }

  lemma DomainSpells()
    ensures DOMAIN == Utf8("lead-identity-v1") && 0 !in DOMAIN
  {
    hide Utf8;
    AsciiBytes("lead-identity-v1");
  }
}
