/**
 The streaming inventory identity: Git entries in strict path order, under a
 count cap and a byte cap, fed to a hash as length-prefixed records. The hash is
 opaque: everything here is about the bytes it is fed.
 */
module InventoryManifest {
  import opened Bytes
  import opened Hexadecimal
  import opened Wrappers

  const MAX_ENTRIES := 1_000_000
  const MAX_BYTES := 256 * 1024 * 1024
  const MAX_PATH_BYTES := 64 * 1024

  const SLASH: u8 := 47
  const DOT: u8 := 46

  // "loupe.inventory.v1" followed by NUL
  const DOMAIN: seq<u8> :=
    [108, 111, 117, 112, 101, 46, 105, 110, 118, 101, 110, 116, 111, 114, 121, 46, 118, 49, 0]

  datatype ManifestEntry = ManifestEntry(rawPath: seq<u8>, gitMode: nat, objectId: string)

  // ---------- Entry admission ----------

  predicate IsGitOid(value: string)
  {
    (|value| == 40 || |value| == 64) && AllHex(value)
  }

  predicate SupportedMode(mode: nat)
  {
    // 0o100644, 0o100755, 0o120000, 0o160000
    mode == 0x81A4 || mode == 0x81ED || mode == 0xA000 || mode == 0xE000
  }

  function NextSlash(p: seq<u8>, lo: nat): (hi: nat)
    requires lo <= |p|
    ensures lo <= hi <= |p| && (hi == |p| || p[hi] == SLASH)
    ensures forall k :: lo <= k < hi ==> p[k] != SLASH
    decreases |p| - lo
  {
    if lo == |p| || p[lo] == SLASH then lo else NextSlash(p, lo + 1)
  }

  function Split(p: seq<u8>, lo: nat): (parts: seq<seq<u8>>)
    requires lo <= |p|
    decreases |p| - lo
  {
    var hi := NextSlash(p, lo);
    [p[lo..hi]] + (if hi == |p| then [] else Split(p, hi + 1))
  }

  predicate BadPart(part: seq<u8>)
  {
    part == [] || part == [DOT] || part == [DOT, DOT]
  }

  /** `p[lo..hi]` is a whole slash-delimited component of `p`. */
  predicate Component(p: seq<u8>, lo: int, hi: int)
  {
    && 0 <= lo <= hi <= |p|
    && (lo == 0 || p[lo - 1] == SLASH)
    && (hi == |p| || p[hi] == SLASH)
    && (forall k :: lo <= k < hi ==> p[k] != SLASH)
  }

  /** A component from `lo` on is the first one or lies beyond the separator that ends it. */
  lemma ComponentStep(p: seq<u8>, lo: nat, l: int, h: int)
    requires lo <= |p| && (lo == 0 || p[lo - 1] == SLASH)
    requires lo <= l && Component(p, l, h)
    ensures var hi := NextSlash(p, lo); (l == lo && h == hi) || (hi < |p| && hi + 1 <= l)
  {
  }

  ghost predicate ComponentFrom(p: seq<u8>, lo: nat, part: seq<u8>)
  {
    exists l, h :: lo <= l && Component(p, l, h) && p[l..h] == part
  }

  lemma ComponentsFrom(p: seq<u8>, lo: nat, part: seq<u8>)
    requires lo <= |p| && (lo == 0 || p[lo - 1] == SLASH)
    ensures var hi := NextSlash(p, lo);
            ComponentFrom(p, lo, part) <==> part == p[lo..hi] || (hi < |p| && ComponentFrom(p, hi + 1, part))
  {
    var hi := NextSlash(p, lo);
    assert Component(p, lo, hi);
    if l, h :| lo <= l && Component(p, l, h) && p[l..h] == part {
      ComponentStep(p, lo, l, h);
    }
  }

  lemma InCons<T>(head: T, tail: seq<T>, x: T)
    ensures x in [head] + tail <==> x == head || x in tail
  {
  }

  lemma {:induction false} SplitHoldsComponents(p: seq<u8>, lo: nat, part: seq<u8>)
    requires lo <= |p| && (lo == 0 || p[lo - 1] == SLASH)
    ensures part in Split(p, lo) <==> ComponentFrom(p, lo, part)
    decreases |p| - lo
  {
    hide ComponentFrom, NextSlash;
    ComponentsFrom(p, lo, part);
    var hi := NextSlash(p, lo);
    if hi < |p| {
      SplitHoldsComponents(p, hi + 1, part);
      InCons(p[lo..hi], Split(p, hi + 1), part);
    }
  }

  /** A repository path: bounded, NUL-free, and no component is empty, dot or dot-dot. */
  ghost predicate ValidPath(p: seq<u8>)
  {
    && 0 < |p| <= MAX_PATH_BYTES
    && 0 !in p
    && (forall lo, hi :: Component(p, lo, hi) ==>
          && lo < hi
          && !(hi == lo + 1 && p[lo] == DOT)
          && !(hi == lo + 2 && p[lo] == DOT && p[lo + 1] == DOT))
  }

  lemma BadPartAt(p: seq<u8>, lo: nat, hi: nat)
    requires lo <= hi <= |p|
    ensures BadPart(p[lo..hi])
            <==> lo == hi || (hi == lo + 1 && p[lo] == DOT) || (hi == lo + 2 && p[lo] == DOT && p[lo + 1] == DOT)
  {
  }

  function FromParts(rawPath: seq<u8>, gitMode: nat, objectId: string): (r: Result<ManifestEntry>)
    ensures r.Ok? <==> ValidPath(rawPath) && SupportedMode(gitMode) && IsGitOid(objectId)
    ensures r.Ok? ==> r.value == ManifestEntry(rawPath, gitMode, objectId)
    ensures r.Err? ==> r.error ==
                       if !ValidPath(rawPath) then "invalid raw inventory path"
                       else if !SupportedMode(gitMode) then "unsupported inventory mode"
                       else "invalid inventory object id"
  {
    assert (exists part :: part in Split(rawPath, 0) && BadPart(part)) <==>
           (exists lo, hi :: Component(rawPath, lo, hi) && BadPart(rawPath[lo..hi])) by {
      forall part ensures part in Split(rawPath, 0) <==>
                          exists l, h :: 0 <= l && Component(rawPath, l, h) && rawPath[l..h] == part {
        SplitHoldsComponents(rawPath, 0, part);
      }
      if lo, hi :| Component(rawPath, lo, hi) && BadPart(rawPath[lo..hi]) {
        assert rawPath[lo..hi] in Split(rawPath, 0);
      }
    }
    assert (forall lo, hi :: Component(rawPath, lo, hi) ==> !BadPart(rawPath[lo..hi])) <==>
           (forall lo, hi :: Component(rawPath, lo, hi) ==>
              && lo < hi
              && !(hi == lo + 1 && rawPath[lo] == DOT)
              && !(hi == lo + 2 && rawPath[lo] == DOT && rawPath[lo + 1] == DOT)) by {
      forall lo, hi | Component(rawPath, lo, hi) {
        BadPartAt(rawPath, lo, hi);
      }
    }
    if rawPath == [] || |rawPath| > MAX_PATH_BYTES || 0 in rawPath
       || (exists part | part in Split(rawPath, 0) :: BadPart(part))
    then Err("invalid raw inventory path")
    else if !SupportedMode(gitMode) then Err("unsupported inventory mode")
    else if !IsGitOid(objectId) then Err("invalid inventory object id")
    else Ok(ManifestEntry(rawPath, gitMode, objectId))
  }

  function FromEncoded(rawPathHex: string, gitMode: nat, objectId: string): (r: Result<ManifestEntry>)
  {
    if rawPathHex == "" || |rawPathHex| > MAX_PATH_BYTES * 2 || |rawPathHex| % 2 != 0 || !AllHex(rawPathHex)
    then Err("invalid raw inventory path encoding")
    else FromParts(HexBytes(rawPathHex), gitMode, objectId)
  }

  /** The hex wire form admits exactly the entries the raw form does, one spelling each. */
  lemma EncodedAdmission(wire: string, path: seq<u8>, mode: nat, oid: string)
    ensures FromEncoded(HexText(path), mode, oid).Ok? <==> FromParts(path, mode, oid).Ok?
    ensures FromEncoded(HexText(path), mode, oid).Ok? ==>
              FromEncoded(HexText(path), mode, oid).value == ManifestEntry(path, mode, oid)
    ensures FromEncoded(wire, mode, oid).Ok? ==> wire == HexText(FromEncoded(wire, mode, oid).value.rawPath)
  {
    HexDecodesText(path);
    if FromEncoded(wire, mode, oid).Ok? {
      HexEncodesBytes(wire);
    }
  }

  // ---------- The byte stream ----------

  ghost predicate ValidEntry(e: ManifestEntry)
  {
    ValidPath(e.rawPath) && SupportedMode(e.gitMode) && IsGitOid(e.objectId)
  }

  function Pow256(w: nat): (r: int)
    ensures r >= 1
  {
    if w == 0 then 1 else 256 * Pow256(w - 1)
  }

  /** The `w` low bytes of `n`, most significant first. */
  function BigEndian(n: nat, w: nat): (r: seq<u8>)
    ensures |r| == w
  {
    if w == 0 then [] else BigEndian(n / 256, w - 1) + [n % 256]
  }

  function OidBytes(oid: string): (r: seq<u8>)
    requires IsGitOid(oid)
    ensures |r| == |oid| / 2
  {
    HexBytes(oid)
  }

  function Header(commit: string, expected: nat): (r: seq<u8>)
    requires IsGitOid(commit)
  {
    DOMAIN + [|commit| / 2] + OidBytes(commit) + BigEndian(expected, 8)
  }

  ghost function EntryBytes(e: ManifestEntry): (r: seq<u8>)
    requires ValidEntry(e)
  {
    BigEndian(|e.rawPath|, 4) + e.rawPath + BigEndian(e.gitMode, 4) + [|e.objectId| / 2] + OidBytes(e.objectId)
  }

  function CanonicalLen(e: ManifestEntry): (r: nat)
  {
    4 + |e.rawPath| + 4 + 1 + |e.objectId| / 2
  }

  ghost predicate AllValid(es: seq<ManifestEntry>)
  {
    forall e :: e in es ==> ValidEntry(e)
  }

  ghost function Body(es: seq<ManifestEntry>): (r: seq<u8>)
    requires AllValid(es)
  {
    if es == [] then []
    else Body(es[..|es| - 1]) + EntryBytes(es[|es| - 1])
  }

  lemma {:induction false} BodyFront(es: seq<ManifestEntry>)
    requires es != [] && AllValid(es)
    ensures Body(es) == EntryBytes(es[0]) + Body(es[1..])
  {
    hide EntryBytes, ValidEntry;
    if |es| == 1 {
      assert es[..0] == [] && es[1..] == [];
    } else {
      var n := |es| - 1;
      BodyFront(es[..n]);
      assert es[..n][1..] == es[1..][..n - 1] && es[..n][0] == es[0];
      ConcatAssoc(EntryBytes(es[0]), Body(es[1..][..n - 1]), EntryBytes(es[n]));
    }
  }

  lemma Pow256Values()
    ensures Pow256(4) == 0x1_0000_0000 && Pow256(8) == 0x1_0000_0000_0000_0000
  {
    assert Pow256(2) == 65536;
    assert Pow256(4) == 0x1_0000_0000;
    assert Pow256(6) == 0x1_0000_0000_0000;
  }

  lemma PathBound(e: ManifestEntry)
    requires ValidEntry(e)
    ensures |e.rawPath| <= MAX_PATH_BYTES
  {
  }

  // ---------- Reading a stream ----------

  /** The number a run of bytes spells, read from left to right. */
  function Number(b: seq<u8>): (n: nat)
  {
    if b == [] then 0 else Number(b[..|b| - 1]) * 256 + b[|b| - 1]
  }

  lemma {:induction false} NumberOfBigEndian(n: nat, w: nat)
    requires n < Pow256(w)
    ensures Number(BigEndian(n, w)) == n
  {
    if w > 0 {
      var b := BigEndian(n, w);
      NumberOfBigEndian(n / 256, w - 1);
      assert b[..w - 1] == BigEndian(n / 256, w - 1);
    }
  }

  /** One record: path length, path, mode, id length, id. */
  function ReadEntry(s: seq<u8>): (r: Option<(ManifestEntry, seq<u8>)>)
    ensures r.Some? ==> |r.value.1| < |s|
  {
    if |s| < 4 then None
    else
      var n := Number(s[..4]);
      if |s| < n + 9 then None
      else
        var k: nat := s[n + 8];
        if |s| < n + 9 + k then None
        else Some((ManifestEntry(s[4..n + 4], Number(s[n + 4..n + 8]), HexText(s[n + 9..n + 9 + k])), s[n + 9 + k..]))
  }

  function ReadEntries(s: seq<u8>, count: nat): (r: Option<seq<ManifestEntry>>)
  {
    if count == 0 then (if s == [] then Some([]) else None)
    else
      var first := ReadEntry(s);
      if first.None? then None
      else
        var more := ReadEntries(first.value.1, count - 1);
        if more.None? then None else Some([first.value.0] + more.value)
  }

  /** Bytes that are the characters of a text. */
  predicate Ascii(b: seq<u8>, text: string)
  {
    |b| == |text| && forall i :: 0 <= i < |b| ==> b[i] == text[i] as int
  }

  /** Domain, commit, count. */
  function ReadHeader(s: seq<u8>): (r: Option<(string, nat, seq<u8>)>)
  {
    if |s| < 20 || !Ascii(s[..19], "loupe.inventory.v1\0") then None
    else
      var k: nat := s[19];
      if |s| < k + 28 then None
      else Some((HexText(s[20..k + 20]), Number(s[k + 20..k + 28]), s[k + 28..]))
  }

  /** A whole stream: the header, then exactly as many records as it announces. */
  function ReadStream(s: seq<u8>): (r: Option<(string, seq<ManifestEntry>)>)
  {
    var header := ReadHeader(s);
    if header.None? then None
    else
      var entries := ReadEntries(header.value.2, header.value.1);
      if entries.None? then None else Some((header.value.0, entries.value))
  }

  /** Where five pieces lie in their concatenation. */
  lemma PiecesLie(a: seq<u8>, b: seq<u8>, c: seq<u8>, d: seq<u8>, e: seq<u8>, rest: seq<u8>)
    ensures var s := a + b + c + d + e + rest;
            && s[..|a|] == a && s[|a|..|a| + |b|] == b && s[|a| + |b|..|a| + |b| + |c|] == c
            && s[|a| + |b| + |c|..|a| + |b| + |c| + |d|] == d
            && s[|a| + |b| + |c| + |d|..|a| + |b| + |c| + |d| + |e|] == e
            && s[|a| + |b| + |c| + |d| + |e|..] == rest
  {
  }

  lemma ReadsEntry(e: ManifestEntry, rest: seq<u8>)
    requires ValidEntry(e)
    ensures ReadEntry(EntryBytes(e) + rest) == Some((e, rest))
  {
    hide BigEndian, Number, HexText, HexBytes;
    PathBound(e);
    Pow256Values();
    var n, k := |e.rawPath|, |e.objectId| / 2;
    NumberOfBigEndian(n, 4);
    NumberOfBigEndian(e.gitMode, 4);
    HexEncodesBytes(e.objectId);
    PiecesLie(BigEndian(n, 4), e.rawPath, BigEndian(e.gitMode, 4), [k], OidBytes(e.objectId), rest);
    var s := EntryBytes(e) + rest;
    assert s[n + 8] == s[n + 8..n + 9][0] == k;
  }

  lemma {:induction false} ReadsBody(es: seq<ManifestEntry>)
    requires AllValid(es)
    ensures ReadEntries(Body(es), |es|) == Some(es)
  {
    hide ReadEntry, EntryBytes, ValidEntry;
    if es != [] {
      BodyFront(es);
      ReadsEntry(es[0], Body(es[1..]));
      ReadsBody(es[1..]);
      assert es == [es[0]] + es[1..];
    }
  }

  lemma DomainSpells()
    ensures Ascii(DOMAIN, "loupe.inventory.v1\0")
  {
  }

  lemma ReadsParts(domain: seq<u8>, k: u8, oid: seq<u8>, count: seq<u8>, rest: seq<u8>)
    requires Ascii(domain, "loupe.inventory.v1\0") && |domain| == 19 && |oid| == k && |count| == 8
    ensures ReadHeader(domain + [k] + oid + count + rest) == Some((HexText(oid), Number(count), rest))
  {
    hide Number, HexText, Ascii;
    PiecesLie(domain, [k], oid, count, [], rest);
    var s := domain + [k] + oid + count + rest;
    assert s == domain + [k] + oid + count + [] + rest;
    assert s[19] == s[19..20][0] == k;
  }

  lemma ReadsHeader(commit: string, count: nat, rest: seq<u8>)
    requires IsGitOid(commit) && count <= MAX_ENTRIES
    ensures ReadHeader(Header(commit, count) + rest) == Some((commit, count, rest))
  {
    hide BigEndian, Number, HexText, HexBytes, ReadHeader, Ascii;
    Pow256Values();
    DomainSpells();
    NumberOfBigEndian(count, 8);
    HexEncodesBytes(commit);
    ReadsParts(DOMAIN, |commit| / 2, OidBytes(commit), BigEndian(count, 8), rest);
  }

  /** The hashed bytes spell out the commit, the count and every entry in order. */
  lemma ReadsStream(commit: string, es: seq<ManifestEntry>)
    requires IsGitOid(commit) && AllValid(es) && |es| <= MAX_ENTRIES
    ensures ReadStream(Header(commit, |es|) + Body(es)) == Some((commit, es))
  {
    hide Header, ReadHeader, ReadEntries, Body, AllValid;
    ReadsHeader(commit, |es|, Body(es));
    ReadsBody(es);
  }

  /** One record determines where it ends: no record is a prefix of another. */
  lemma EntryPrefixFree(e: ManifestEntry, x: seq<u8>, f: ManifestEntry, y: seq<u8>)
    requires ValidEntry(e) && ValidEntry(f)
    requires EntryBytes(e) + x == EntryBytes(f) + y
    ensures e == f && x == y
  {
    hide ReadEntry, EntryBytes, ValidEntry;
    ReadsEntry(e, x);
    ReadsEntry(f, y);
  }

  lemma HeaderPrefixFree(c: string, n: nat, x: seq<u8>, d: string, m: nat, y: seq<u8>)
    requires IsGitOid(c) && IsGitOid(d) && n <= MAX_ENTRIES && m <= MAX_ENTRIES
    requires Header(c, n) + x == Header(d, m) + y
    ensures c == d && n == m && x == y
  {
    hide ReadHeader, Header, IsGitOid;
    ReadsHeader(c, n, x);
    ReadsHeader(d, m, y);
  }

  lemma BodyInjective(a: seq<ManifestEntry>, b: seq<ManifestEntry>)
    requires AllValid(a) && AllValid(b) && |a| == |b| && Body(a) == Body(b)
    ensures a == b
  {
    hide ReadEntries, Body, AllValid;
    ReadsBody(a);
    ReadsBody(b);
  }

  // ---------- Runs of pushes ----------

  ghost predicate InOrder(es: seq<ManifestEntry>)
  {
    StrictlyOrdered(es, (e: ManifestEntry) => e.rawPath)
  }

  /** What holds of the entries accepted so far, in every reachable state. */
  ghost predicate Accepted(expected: nat, es: seq<ManifestEntry>)
  {
    AllValid(es) && InOrder(es) && |es| <= expected && |Body(es)| <= MAX_BYTES
  }

  ghost predicate Admits(expected: nat, es: seq<ManifestEntry>, e: ManifestEntry)
    requires AllValid(es) && ValidEntry(e)
  {
    && |es| < expected
    && (es == [] || LexLess(es[|es| - 1].rawPath, e.rawPath))
    && |Body(es + [e])| <= MAX_BYTES
  }

  /** An entry is admitted exactly when appending it keeps the run's invariant. */
  lemma AdmitsIffStillAccepted(expected: nat, es: seq<ManifestEntry>, e: ManifestEntry)
    requires Accepted(expected, es) && ValidEntry(e)
    ensures Admits(expected, es, e) <==> Accepted(expected, es + [e])
    ensures |Body(es + [e])| == |Body(es)| + CanonicalLen(e)
  {
    var next := es + [e];
    assert next[..|next| - 1] == es;
    if Admits(expected, es, e) {
      forall i, j | 0 <= i < j < |next| ensures LexLess(next[i].rawPath, next[j].rawPath) {
        if j == |es| && i < |es| - 1 {
          LexTransitive(es[i].rawPath, es[|es| - 1].rawPath, e.rawPath);
        }
      }
    }
    if Accepted(expected, next) && es != [] {
      assert LexLess(next[|es| - 1].rawPath, next[|es|].rawPath);
    }
  }

  /** The entries accepted by a whole run of pushes, rejected ones included in the input. */
  ghost function Run(expected: nat, pushes: seq<ManifestEntry>): (es: seq<ManifestEntry>)
    requires AllValid(pushes)
    ensures Accepted(expected, es)
    decreases |pushes|
  {
    if pushes == [] then []
    else
      var before := Run(expected, pushes[..|pushes| - 1]);
      var e := pushes[|pushes| - 1];
      AdmitsIffStillAccepted(expected, before, e);
      if Admits(expected, before, e) then before + [e] else before
  }

  /** Erasing the rejected pushes changes nothing: the accepted ones alone are all accepted. */
  lemma {:induction false} RunErasesRejected(expected: nat, pushes: seq<ManifestEntry>)
    requires AllValid(pushes)
    ensures Run(expected, Run(expected, pushes)) == Run(expected, pushes)
    ensures forall e :: e in Run(expected, pushes) ==> e in pushes
    decreases |pushes|
  {
    if pushes != [] {
      var before := Run(expected, pushes[..|pushes| - 1]);
      RunErasesRejected(expected, pushes[..|pushes| - 1]);
      var es := Run(expected, pushes);
      if es != before {
        assert es[..|es| - 1] == before;
      }
    }
  }

  /** A sorted complete inventory within the byte cap is accepted whole. */
  lemma {:induction false} RunAcceptsOrdered(expected: nat, es: seq<ManifestEntry>)
    requires Accepted(expected, es)
    ensures Run(expected, es) == es
    decreases |es|
  {
    if es != [] {
      var front := es[..|es| - 1];
      assert es == front + [es[|es| - 1]];
      RunAcceptsOrdered(expected, front);
      AdmitsIffStillAccepted(expected, front, es[|es| - 1]);
    }
  }

  /**
   Two complete runs feed the hash the same bytes exactly when they have the same
   commit and accepted the same set of entries.
   */
  lemma StreamIdentity(c: string, a: seq<ManifestEntry>, d: string, b: seq<ManifestEntry>)
    requires IsGitOid(c) && IsGitOid(d) && |a| <= MAX_ENTRIES && |b| <= MAX_ENTRIES
    requires Accepted(|a|, a) && Accepted(|b|, b)
    ensures Header(c, |a|) + Body(a) == Header(d, |b|) + Body(b)
            <==> c == d && (forall e :: e in a <==> e in b)
  {
    ReadsStream(c, a);
    ReadsStream(d, b);
    if forall e :: e in a <==> e in b {
      StrictOrderIsUnique(a, b, (e: ManifestEntry) => e.rawPath);
    }
  }

  // ---------- The hasher ----------

  /** Feeding the five pieces of a record one by one appends the record to the body. */
  lemma FeedRecord(header: seq<u8>, es: seq<ManifestEntry>, e: ManifestEntry)
    requires AllValid(es) && ValidEntry(e)
    ensures AllValid(es + [e])
    ensures header + Body(es) + BigEndian(|e.rawPath|, 4) + e.rawPath + BigEndian(e.gitMode, 4)
            + [|e.objectId| / 2] + OidBytes(e.objectId) == header + Body(es + [e])
  {
    hide ValidEntry, BigEndian, OidBytes;
    assert (es + [e])[..|es|] == es;
  }

  class ManifestHasher {
    var stream: seq<u8>            // every byte fed to the hash so far
    var expected: nat
    var received: nat
    var bytes: nat
    var previous: Option<seq<u8>>

    ghost const commit: string
    ghost var accepted: seq<ManifestEntry>

    ghost predicate Valid()
      reads this
    {
      && IsGitOid(commit) && expected <= MAX_ENTRIES
      && Accepted(expected, accepted)
      && stream == Header(commit, expected) + Body(accepted)
      && received == |accepted|
      && bytes == |Body(accepted)|
      && previous == if accepted == [] then None else Some(accepted[|accepted| - 1].rawPath)
    }

    constructor (commit: string, expected: nat)
      requires IsGitOid(commit) && expected <= MAX_ENTRIES
      ensures Valid() && accepted == [] && this.commit == commit && this.expected == expected
    {
      this.commit := commit;
      this.expected := expected;
      received := 0;
      bytes := 0;
      previous := None;
      accepted := [];
      stream := DOMAIN + [|commit| / 2] + OidBytes(commit) + BigEndian(expected, 8);
    }

    static method New(commit: string, expected: nat) returns (r: Result<ManifestHasher>)
      ensures r.Ok? <==> expected <= MAX_ENTRIES && IsGitOid(commit)
      ensures r.Ok? ==> fresh(r.value) && r.value.Valid() && r.value.commit == commit
                        && r.value.expected == expected && r.value.accepted == []
      ensures r.Err? ==> r.error == if expected > MAX_ENTRIES then "inventory entry limit exceeded"
                                    else "invalid inventory object id"
    {
      if expected > MAX_ENTRIES {
        return Err("inventory entry limit exceeded");
      }
      if !IsGitOid(commit) {
        return Err("invalid inventory object id");
      }
      var h := new ManifestHasher(commit, expected);
      return Ok(h);
    }

    /** Accepts exactly what keeps the run valid; a rejected push changes nothing. */
    method Push(entry: ManifestEntry) returns (r: Result<()>)
      requires Valid() && ValidEntry(entry)
      modifies this
      ensures Valid() && expected == old(expected)
      ensures r.Ok? <==> Admits(expected, old(accepted), entry)
      ensures accepted == if r.Ok? then old(accepted) + [entry] else old(accepted)
      ensures r.Err? ==> unchanged(this)
      ensures r.Err? ==> r.error ==
                         if |accepted| < expected
                            && (accepted == [] || LexLess(accepted[|accepted| - 1].rawPath, entry.rawPath))
                         then "inventory byte limit exceeded"
                         else "inventory is not an ordered complete set"
    {
      hide ValidPath, InOrder, Body, Header, BigEndian, OidBytes;
      AdmitsIffStillAccepted(expected, accepted, entry);
      FeedRecord(Header(commit, expected), accepted, entry);
      var len := CanonicalLen(entry);
      if received >= expected {
        return Err("inventory is not an ordered complete set");
      }
      if previous.Some? && (previous.value == entry.rawPath || LexLess(entry.rawPath, previous.value)) {
        LexTotal(previous.value, entry.rawPath);
        return Err("inventory is not an ordered complete set");
      }
      if previous.Some? {
        LexTotal(previous.value, entry.rawPath);
      }
      if bytes + len > MAX_BYTES {
        return Err("inventory byte limit exceeded");
      }
      var oid := OidBytes(entry.objectId);
      stream := stream + BigEndian(|entry.rawPath|, 4);
      stream := stream + entry.rawPath;
      stream := stream + BigEndian(entry.gitMode, 4);
      stream := stream + [|oid|];
      stream := stream + oid;
      received := received + 1;
      bytes := bytes + len;
      previous := Some(entry.rawPath);
      accepted := accepted + [entry];
      return Ok(());
    }

    /** The hashed bytes, once every expected entry has arrived. */
    method Finish() returns (r: Result<seq<u8>>)
      requires Valid()
      ensures r.Ok? <==> |accepted| == expected
      ensures r.Err? ==> r.error == "incomplete inventory"
      ensures r.Ok? ==> r.value == Header(commit, expected) + Body(accepted)
    {
      if received != expected {
        return Err("incomplete inventory");
      }
      return Ok(stream);
    }
  }

  /** Two finished hashers were fed equal bytes exactly when they saw one commit and one set. */
  lemma FinishedHashersAgree(h: ManifestHasher, k: ManifestHasher)
    requires h.Valid() && k.Valid()
    requires h.received == h.expected && k.received == k.expected
    ensures h.stream == k.stream <==> h.commit == k.commit && (forall e :: e in h.accepted <==> e in k.accepted)
  {
    StreamIdentity(h.commit, h.accepted, k.commit, k.accepted);
  }

  /** So what a finished hasher fed to the hash reads back as its commit and its accepted entries. */
  lemma FinishedStreamReads(h: ManifestHasher)
    requires h.Valid() && h.received == h.expected
    ensures ReadStream(h.stream) == Some((h.commit, h.accepted))
  {
    ReadsStream(h.commit, h.accepted);
  }
}
