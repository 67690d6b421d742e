/**
 * The credential store of coreapi/authentication.c: realm comparison, the four-level lookup, and
 * replace-on-add. A null or empty string of the source is None here.
 */
module Credentials {
  import opened Bytes

  datatype AuthInfo = AuthInfo(
    username: Option<string>, realm: Option<string>, domain: Option<string>,
    password: Option<string>, ha1: Option<string>, algorithm: Option<string>,
    tlsKey: Option<string>, tlsKeyPath: Option<string>)

  // ---- Realms -------------------------------------------------------------------------------------

  /** The text before the first quote. */
  function UpToQuote(s: string): (r: string)
    ensures |r| <= |s| && s[..|r|] == r && '"' !in r && (|r| < |s| ==> s[|r|] == '"')
  {
    if s == [] || s[0] == '"' then [] else [s[0]] + UpToQuote(s[1..])
  }

  /** A leading quote is skipped and the next one ends the text. */
  function Unquoted(s: string): string {
    if s != [] && s[0] == '"' then UpToQuote(s[1..]) else UpToQuote(s)
  }

  /** A quoted realm is the text between its quotes, and a text without quotes is itself. */
  lemma UnquotedText(s: string)
    requires '"' !in s
    ensures Unquoted(s) == s && Unquoted(['"'] + s + ['"']) == s
  {
    UpToQuoteStops(s, []);
    UpToQuoteStops(s, ['"']);
    assert s + [] == s && (['"'] + s + ['"'])[1..] == s + ['"'];
    assert s != [] ==> s[0] in s;
  }

  lemma {:induction false} UpToQuoteStops(s: string, rest: string)
    requires '"' !in s && (rest == [] || rest[0] == '"')
    ensures UpToQuote(s + rest) == s
    decreases |s|
  {
    if s == [] {
      assert s + rest == rest;
    } else {
      assert s[0] in s && (s + rest)[1..] == s[1..] + rest;
      UpToQuoteStops(s[1..], rest);
    }
  }

  predicate RealmMatch(r1: Option<string>, r2: Option<string>) {
    match (r1, r2)
    case (None, None) => true
    case (Some(a), Some(b)) => a == b || Unquoted(a) == Unquoted(b)
    case _ => false
  }

  function CanonicalRealm(r: Option<string>): Option<string> {
    if r.None? then None else Some(Unquoted(r.value))
  }

  /** Matching is equality of a canonical form, hence an equivalence. */
  lemma RealmMatchIsEquivalence(r1: Option<string>, r2: Option<string>)
    ensures RealmMatch(r1, r2) <==> CanonicalRealm(r1) == CanonicalRealm(r2)
  {
  }

  /** The C string at position `p` of a buffer. */
  function CString(buf: seq<char>, p: nat): (s: string)
    requires p <= |buf|
    decreases |buf| - p
  {
    if p == |buf| || buf[p] == '\0' then [] else [buf[p]] + CString(buf, p + 1)
  }

  /** A string without NUL followed by a NUL reads back. */
  lemma {:induction false} CStringReads(buf: seq<char>, p: nat, s: string)
    requires p + |s| < |buf| && buf[p..p + |s|] == s && '\0' !in s && buf[p + |s|] == '\0'
    ensures CString(buf, p) == s
    decreases |s|
  {
    if s != [] {
      assert buf[p] == buf[p..p + |s|][0] == s[0] && s[0] in s;
      assert buf[p + 1..p + 1 + |s[1..]|] == buf[p..p + |s|][1..];
      CStringReads(buf, p + 1, s[1..]);
    }
  }

  /** `remove_quotes`: returns where the text starts and cuts the buffer at the next quote. */
  method RemoveQuotes(input: array<char>, ghost s: string) returns (start: nat)
    requires |s| < input.Length && input[..|s|] == s && '\0' !in s && input[|s|] == '\0'
    modifies input
    ensures start <= input.Length && CString(input[..], start) == Unquoted(s)
  {
    start := if input[0] == '"' then 1 else 0;
    assert |s| > 0 ==> input[0] == s[0];
    ghost var t := s[start..];
    assert input[start..start + |t|] == t by {
      assert input[..|s|][start..] == t;
    }
    ghost var cut := UpToQuote(t);
    ghost var stop := start + |cut|;
    assert t[..|cut|] == cut;
    assert forall j | 0 <= j < |cut| :: cut[j] == input[start + j] && cut[j] != '\0' && cut[j] != '"' by {
      forall j | 0 <= j < |cut| ensures cut[j] == input[start + j] && cut[j] != '\0' && cut[j] != '"' {
        assert cut[j] == t[j] && t[j] in s && cut[j] in cut;
      }
    }
    assert input[stop] == '"' || input[stop] == '\0' by {
      assert |cut| < |t| ==> t[|cut|] == input[stop];
    }
    var i := start;
    while input[i] != '\0' && input[i] != '"'
      invariant start <= i <= stop
      invariant i < stop ==> input[i] == cut[i - start]
      decreases stop - i
    {
      i := i + 1;
    }
    assert i == stop;
    if input[i] == '"' { input[i] := '\0'; }
    assert input[..][start..stop] == cut;
    CStringReads(input[..], start, cut);
  }

  const REALM_BUFFER := 128

  /** What the fixed buffers can hold. */
  predicate ShortRealm(r: Option<string>) {
    r.Some? ==> |r.value| < REALM_BUFFER - 1 && '\0' !in r.value
  }

  method Fill(s: string) returns (tmp: array<char>)
    requires |s| < REALM_BUFFER - 1
    ensures fresh(tmp) && tmp.Length == REALM_BUFFER && tmp[..|s|] == s && tmp[|s|] == '\0'
  {
    tmp := new char[REALM_BUFFER](_ => '\0');
    for i := 0 to |s|
      invariant tmp[..i] == s[..i] && forall j | i <= j < REALM_BUFFER :: tmp[j] == '\0'
    {
      tmp[i] := s[i];
    }
  }

  /** `strcmp` of two C strings; the buffers are only needed for two realms that differ. */
  method RealmsMatch(realm1: Option<string>, realm2: Option<string>) returns (r: bool)
    requires realm1.Some? && realm2.Some? && realm1 != realm2 ==> ShortRealm(realm1) && ShortRealm(realm2)
    ensures r == RealmMatch(realm1, realm2)
  {
    if realm1.None? && realm2.None? { return true; }
    if realm1.Some? && realm2.Some? {
      if realm1.value == realm2.value { return true; }
      var tmp1 := Fill(realm1.value);
      var tmp2 := Fill(realm2.value);
      var p1 := RemoveQuotes(tmp1, realm1.value);
      var p2 := RemoveQuotes(tmp2, realm2.value);
      return CString(tmp1[..], p1) == CString(tmp2[..], p2);
    }
    return false;
  }

  // ---- Algorithms ---------------------------------------------------------------------------------

  function LowerChar(c: char): char { if 'A' <= c <= 'Z' then c - 'A' + 'a' else c }

  predicate SameIgnoringCase(a: string, b: string) {
    |a| == |b| && forall i | 0 <= i < |a| :: LowerChar(a[i]) == LowerChar(b[i])
  }

  /** The text with the letters A to Z made small. */
  function Lowered(s: string): string {
    if s == [] then []
    else [if 65 <= s[0] as int <= 90 then (s[0] as int + 32) as char else s[0]] + Lowered(s[1..])
  }

  lemma {:induction false} LoweredAt(s: string, i: nat)
    requires i < |s|
    ensures |Lowered(s)| == |s| && Lowered(s)[i] == LowerChar(s[i])
  {
    if i > 0 { LoweredAt(s[1..], i - 1); } else if |s| > 1 { LoweredAt(s[1..], 0); }
  }

  lemma {:induction false} LoweredLength(s: string)
    ensures |Lowered(s)| == |s|
  {
    if s != [] { LoweredLength(s[1..]); }
  }

  /** Comparing without regard to case is comparing the lowered texts. */
  lemma SameIgnoringCaseIff(a: string, b: string)
    ensures SameIgnoringCase(a, b) <==> Lowered(a) == Lowered(b)
  {
    hide LowerChar, Lowered;
    LoweredLength(a);
    LoweredLength(b);
    if |a| == |b| {
      forall i | 0 <= i < |a| ensures Lowered(a)[i] == LowerChar(a[i]) && Lowered(b)[i] == LowerChar(b[i]) {
        LoweredAt(a, i);
        LoweredAt(b, i);
      }
    }
  }

  /** A clear password serves any algorithm unless one was chosen; a lone ha1 without one means MD5. */
  predicate Compatible(ai: AuthInfo, algorithm: Option<string>) {
    || algorithm.None?
    || (ai.algorithm.None? && (ai.password.Some? || SameIgnoringCase(algorithm.value, "MD5")))
    || (ai.algorithm.Some? && SameIgnoringCase(algorithm.value, ai.algorithm.value))
  }

  // ---- Lookup -------------------------------------------------------------------------------------

  /** The first position whose entry satisfies `p`. */
  function First(list: seq<AuthInfo>, p: AuthInfo -> bool): (r: Option<nat>)
    ensures r.Some? ==> r.value < |list| && p(list[r.value]) && forall j | 0 <= j < r.value :: !p(list[j])
    ensures r.None? ==> forall j | 0 <= j < |list| :: !p(list[j])
  {
    if list == [] then None
    else
      var n := |list| - 1;
      var r := First(list[..n], p);
      assert forall j | 0 <= j < n :: list[..n][j] == list[j];
      if r.Some? then r else if p(list[n]) then Some(n) else None
  }

  predicate Several(list: seq<AuthInfo>, p: AuthInfo -> bool) {
    exists i, j :: 0 <= i < j < |list| && p(list[i]) && p(list[j])
  }

  /** The only position whose entry satisfies `p`, if there is exactly one. */
  function Only(list: seq<AuthInfo>, p: AuthInfo -> bool): (r: Option<nat>)
    ensures r.Some? ==> r.value < |list| && p(list[r.value])
                        && forall j | 0 <= j < |list| && j != r.value :: !p(list[j])
    ensures r.None? ==> (forall j | 0 <= j < |list| :: !p(list[j])) || Several(list, p)
  {
    var r := First(list, p);
    if r.None? then None
    else
      var rest := First(list[r.value + 1..], p);
      assert forall j | r.value < j < |list| :: list[j] == list[r.value + 1..][j - r.value - 1];
      if rest.Some? then
        assert p(list[r.value + 1 + rest.value]);
        None
      else r
  }

  /** Entries of this user that can serve the algorithm. */
  predicate Candidate(ai: AuthInfo, username: string, algorithm: Option<string>) {
    ai.username == Some(username) && Compatible(ai, algorithm)
  }

  /** An entry known only by its hash serves one realm, so it is skipped when the realm is not checked. */
  predicate RealmFree(ai: AuthInfo, ignoreRealm: bool) { ai.ha1.None? || ignoreRealm }

  predicate MatchesRealm(ai: AuthInfo, realm: string) { ai.realm.Some? && RealmMatch(Some(realm), ai.realm) }

  /** One level of the lookup. */
  function FindLevel(list: seq<AuthInfo>, username: Option<string>, realm: Option<string>, domain: Option<string>,
                     algorithm: Option<string>, ignoreRealm: bool): Option<nat>
  {
    if username.None? then None
    else
      var u := username.value;
      match (realm, domain)
      case (Some(r), Some(d)) =>
        First(list, ai => Candidate(ai, u, algorithm) && MatchesRealm(ai, r) && ai.domain == Some(d))
      case (Some(r), None) => Only(list, ai => Candidate(ai, u, algorithm) && MatchesRealm(ai, r))
      case (None, Some(d)) =>
        First(list, ai => Candidate(ai, u, algorithm) && ai.domain == Some(d) && RealmFree(ai, ignoreRealm))
      case (None, None) => First(list, ai => Candidate(ai, u, algorithm) && RealmFree(ai, ignoreRealm))
  }

  /** What an entry must satisfy at the level chosen by which of realm and domain are given. */
  function Test(u: string, realm: Option<string>, domain: Option<string>, algorithm: Option<string>, ignoreRealm: bool)
    : AuthInfo -> bool
  {
    (ai: AuthInfo) =>
      && Candidate(ai, u, algorithm)
      && (realm.Some? ==> MatchesRealm(ai, realm.value))
      && (domain.Some? ==> ai.domain == domain)
      && (realm.None? ==> RealmFree(ai, ignoreRealm))
  }

  /** Each level in one reading: the first entry that passes, or on a realm alone the only one. */
  lemma LevelSpec(list: seq<AuthInfo>, u: string, realm: Option<string>, domain: Option<string>,
                  algorithm: Option<string>, ignoreRealm: bool)
    ensures var p := Test(u, realm, domain, algorithm, ignoreRealm);
            var r := FindLevel(list, Some(u), realm, domain, algorithm, ignoreRealm);
            && (r.Some? ==> r.value < |list| && p(list[r.value])
                            && forall j | 0 <= j < r.value :: !p(list[j]))
            && (r.Some? && realm.Some? && domain.None? ==> forall j | 0 <= j < |list| && j != r.value :: !p(list[j]))
            && (r.None? && !(realm.Some? && domain.None?) ==> forall j | 0 <= j < |list| :: !p(list[j]))
            && (r.None? && realm.Some? && domain.None? ==>
                  (forall j | 0 <= j < |list| :: !p(list[j])) || Several(list, p))
  {
    hide RealmMatch, Compatible;
    var p := Test(u, realm, domain, algorithm, ignoreRealm);
    if realm.Some? && domain.None? {
      var q := (ai: AuthInfo) => Candidate(ai, u, algorithm) && MatchesRealm(ai, realm.value);
      assert forall ai :: p(ai) == q(ai);
      OnlyCongruent(list, p, q);
    }
  }

  lemma OnlyCongruent(list: seq<AuthInfo>, p: AuthInfo -> bool, q: AuthInfo -> bool)
    requires forall ai :: p(ai) == q(ai)
    ensures Only(list, p) == Only(list, q)
  {
    var r, t := Only(list, p), Only(list, q);
    if r.Some? { assert q(list[r.value]); }
    if t.Some? { assert p(list[t.value]); }
  }

  /** The unique realm match, else realm and domain, else domain, else the user alone. */
  function Find(list: seq<AuthInfo>, realm: Option<string>, username: Option<string>, domain: Option<string>,
                algorithm: Option<string>, ignoreRealm: bool): Option<nat>
  {
    var byRealm := if realm.Some? then FindLevel(list, username, realm, None, algorithm, false) else None;
    var byBoth := if byRealm.None? && realm.Some? && domain.Some?
                  then FindLevel(list, username, realm, domain, algorithm, false) else byRealm;
    var byDomain := if byBoth.None? && domain.Some?
                    then FindLevel(list, username, None, domain, algorithm, ignoreRealm) else byBoth;
    if byDomain.None? then FindLevel(list, username, None, None, algorithm, ignoreRealm) else byDomain
  }

  function FindPublic(list: seq<AuthInfo>, realm: Option<string>, username: Option<string>, domain: Option<string>)
    : Option<nat>
  {
    Find(list, realm, username, domain, None, true)
  }

  lemma FindInRange(list: seq<AuthInfo>, realm: Option<string>, username: Option<string>, domain: Option<string>,
                    algorithm: Option<string>, ignoreRealm: bool)
    ensures var r := Find(list, realm, username, domain, algorithm, ignoreRealm);
            r.Some? ==> r.value < |list| && username.Some? && list[r.value].username == username
                        && Compatible(list[r.value], algorithm)
  {
    hide Compatible;
  }

  // The lookup declared over the list, level by level

  predicate FirstWith(list: seq<AuthInfo>, p: AuthInfo -> bool, i: nat) {
    i < |list| && p(list[i]) && forall j | 0 <= j < i :: !p(list[j])
  }

  predicate OnlyWith(list: seq<AuthInfo>, p: AuthInfo -> bool, i: nat) {
    i < |list| && p(list[i]) && forall j | 0 <= j < |list| && j != i :: !p(list[j])
  }

  /** The credentials can answer a challenge for the algorithm: that one if they name one, any with a password. */
  predicate Serves(ai: AuthInfo, algorithm: Option<string>) {
    algorithm.Some? ==>
      if ai.algorithm.Some? then SameIgnoringCase(algorithm.value, ai.algorithm.value)
      else ai.password.Some? || SameIgnoringCase(algorithm.value, "MD5")
  }

  lemma CompatibleIff(ai: AuthInfo, algorithm: Option<string>)
    ensures Compatible(ai, algorithm) <==> Serves(ai, algorithm)
  {
    hide SameIgnoringCase;
  }

  /** Of the user, for the algorithm, and, quotes apart, of the realm. */
  function ByRealm(u: string, algorithm: Option<string>, realm: string): AuthInfo -> bool {
    (ai: AuthInfo) =>
      && ai.username == Some(u) && Serves(ai, algorithm)
      && ai.realm.Some? && Unquoted(ai.realm.value) == Unquoted(realm)
  }

  function ByRealmAndDomain(u: string, algorithm: Option<string>, realm: string, domain: string): AuthInfo -> bool {
    (ai: AuthInfo) =>
      && ai.username == Some(u) && Serves(ai, algorithm)
      && ai.realm.Some? && Unquoted(ai.realm.value) == Unquoted(realm) && ai.domain == Some(domain)
  }

  /** Not known by their hash alone, unless the realm is to be ignored. */
  function ByDomain(u: string, algorithm: Option<string>, domain: string, ignoreRealm: bool): AuthInfo -> bool {
    (ai: AuthInfo) =>
      && ai.username == Some(u) && Serves(ai, algorithm)
      && ai.domain == Some(domain) && (ai.ha1.None? || ignoreRealm)
  }

  function ByName(u: string, algorithm: Option<string>, ignoreRealm: bool): AuthInfo -> bool {
    (ai: AuthInfo) => ai.username == Some(u) && Serves(ai, algorithm) && (ai.ha1.None? || ignoreRealm)
  }

  /**
   * The only match of the realm if there is exactly one; otherwise the first match of realm and domain, otherwise the
   * first of the domain, otherwise the first of the user; nothing if there is none of these.
   */
  ghost predicate Declared(list: seq<AuthInfo>, realm: Option<string>, u: string, domain: Option<string>,
                           algorithm: Option<string>, ignoreRealm: bool, r: Option<nat>)
  {
    if realm.Some? && exists i: nat :: OnlyWith(list, ByRealm(u, algorithm, realm.value), i) then
      r.Some? && OnlyWith(list, ByRealm(u, algorithm, realm.value), r.value)
    else if realm.Some? && domain.Some?
            && exists i: nat :: FirstWith(list, ByRealmAndDomain(u, algorithm, realm.value, domain.value), i) then
      r.Some? && FirstWith(list, ByRealmAndDomain(u, algorithm, realm.value, domain.value), r.value)
    else if domain.Some? && exists i: nat :: FirstWith(list, ByDomain(u, algorithm, domain.value, ignoreRealm), i) then
      r.Some? && FirstWith(list, ByDomain(u, algorithm, domain.value, ignoreRealm), r.value)
    else if exists i: nat :: FirstWith(list, ByName(u, algorithm, ignoreRealm), i) then
      r.Some? && FirstWith(list, ByName(u, algorithm, ignoreRealm), r.value)
    else r.None?
  }

  lemma LevelFirst(list: seq<AuthInfo>, u: string, realm: Option<string>, domain: Option<string>,
                   algorithm: Option<string>, ignoreRealm: bool, p: AuthInfo -> bool)
    requires !(realm.Some? && domain.None?)
    requires forall ai :: p(ai) == Test(u, realm, domain, algorithm, ignoreRealm)(ai)
    ensures var r := FindLevel(list, Some(u), realm, domain, algorithm, ignoreRealm);
            && (r.Some? ==> FirstWith(list, p, r.value))
            && (r.None? ==> forall i: nat :: !FirstWith(list, p, i))
  {
    hide FindLevel, Test;
    LevelSpec(list, u, realm, domain, algorithm, ignoreRealm);
  }

  lemma LevelOnly(list: seq<AuthInfo>, u: string, realm: string, algorithm: Option<string>, p: AuthInfo -> bool)
    requires forall ai :: p(ai) == Test(u, Some(realm), None, algorithm, false)(ai)
    ensures var r := FindLevel(list, Some(u), Some(realm), None, algorithm, false);
            && (r.Some? ==> OnlyWith(list, p, r.value))
            && (r.None? ==> forall i: nat :: !OnlyWith(list, p, i))
  {
    hide FindLevel, Test;
    LevelSpec(list, u, Some(realm), None, algorithm, false);
  }

  /** The tests of the levels are the ones declared. */
  lemma TestsAreDeclared(u: string, algorithm: Option<string>, realm: string, domain: string, ignoreRealm: bool,
                         ai: AuthInfo)
    ensures Test(u, Some(realm), None, algorithm, false)(ai) == ByRealm(u, algorithm, realm)(ai)
    ensures Test(u, Some(realm), Some(domain), algorithm, false)(ai)
            == ByRealmAndDomain(u, algorithm, realm, domain)(ai)
    ensures Test(u, None, Some(domain), algorithm, ignoreRealm)(ai) == ByDomain(u, algorithm, domain, ignoreRealm)(ai)
    ensures Test(u, None, None, algorithm, ignoreRealm)(ai) == ByName(u, algorithm, ignoreRealm)(ai)
  {
    hide Compatible, Serves, Unquoted;
    CompatibleIff(ai, algorithm);
  }

  /** The four-level search is the lookup declared. */
  lemma FindIsDeclared(list: seq<AuthInfo>, realm: Option<string>, u: string, domain: Option<string>,
                       algorithm: Option<string>, ignoreRealm: bool)
    ensures Declared(list, realm, u, domain, algorithm, ignoreRealm,
                     Find(list, realm, Some(u), domain, algorithm, ignoreRealm))
  {
    hide FindLevel, Test, FirstWith, OnlyWith, ByRealm, ByRealmAndDomain, ByDomain, ByName;
    var rv, dv := realm.GetOr([]), domain.GetOr([]);
    forall ai: AuthInfo
      ensures Test(u, Some(rv), None, algorithm, false)(ai) == ByRealm(u, algorithm, rv)(ai)
      ensures Test(u, Some(rv), Some(dv), algorithm, false)(ai) == ByRealmAndDomain(u, algorithm, rv, dv)(ai)
      ensures Test(u, None, Some(dv), algorithm, ignoreRealm)(ai) == ByDomain(u, algorithm, dv, ignoreRealm)(ai)
      ensures Test(u, None, None, algorithm, ignoreRealm)(ai) == ByName(u, algorithm, ignoreRealm)(ai)
    {
      TestsAreDeclared(u, algorithm, rv, dv, ignoreRealm, ai);
    }
    LevelOnly(list, u, rv, algorithm, ByRealm(u, algorithm, rv));
    LevelFirst(list, u, Some(rv), Some(dv), algorithm, false, ByRealmAndDomain(u, algorithm, rv, dv));
    LevelFirst(list, u, None, Some(dv), algorithm, ignoreRealm, ByDomain(u, algorithm, dv, ignoreRealm));
    LevelFirst(list, u, None, None, algorithm, ignoreRealm, ByName(u, algorithm, ignoreRealm));
  }

  lemma NoUserNoResult(list: seq<AuthInfo>, realm: Option<string>, domain: Option<string>,
                       algorithm: Option<string>, ignoreRealm: bool)
    ensures Find(list, realm, None, domain, algorithm, ignoreRealm) == None
  {
  }

  /** The public lookup finds nothing exactly when no entry has that user name. */
  lemma PublicFindsUser(list: seq<AuthInfo>, realm: Option<string>, username: string, domain: Option<string>)
    ensures FindPublic(list, realm, Some(username), domain).None?
            <==> forall ai <- list :: ai.username != Some(username)
  {
    FindInRange(list, realm, Some(username), domain, None, true);
    var r := FindPublic(list, realm, Some(username), domain);
    if r.None? {
      var level := FindLevel(list, Some(username), None, None, None, true);
      forall ai <- list ensures ai.username != Some(username) {
        var j :| 0 <= j < |list| && list[j] == ai;
        assert !(Candidate(list[j], username, None) && RealmFree(list[j], true));
      }
    }
  }

  // ---- Adding and removing --------------------------------------------------------------------------

  predicate Usable(info: AuthInfo) {
    info.tlsKey.Some? || info.tlsKeyPath.Some? || info.ha1.Some? || info.password.Some?
  }

  function Drop(list: seq<AuthInfo>, i: nat): seq<AuthInfo>
    requires i < |list|
  {
    list[..i] + list[i + 1..]
  }

  /** The entry a new one replaces: the one found, if it has the very same domain. */
  function Replaced(list: seq<AuthInfo>, info: AuthInfo): (r: Option<nat>)
    ensures r.Some? ==> r.value < |list|
  {
    FindInRange(list, info.realm, info.username, info.domain, None, true);
    var r := FindPublic(list, info.realm, info.username, info.domain);
    if r.Some? && info.domain.Some? && list[r.value].domain == info.domain then r else None
  }

  function Added(list: seq<AuthInfo>, info: AuthInfo): seq<AuthInfo> {
    if !Usable(info) then list
    else
      var r := Replaced(list, info);
      Kept(list, r) + [info]
  }

  function Removed(list: seq<AuthInfo>, info: AuthInfo): seq<AuthInfo> {
    FindInRange(list, info.realm, info.username, info.domain, None, true);
    var r := FindPublic(list, info.realm, info.username, info.domain);
    if r.Some? then Drop(list, r.value) else list
  }

  /** Same user, matching realm, same domain. */
  predicate SameSlot(a: AuthInfo, b: AuthInfo) {
    a.username == b.username && RealmMatch(a.realm, b.realm) && a.domain == b.domain
  }

  predicate Keyed(a: AuthInfo) { a.username.Some? && a.realm.Some? && a.domain.Some? }

  predicate Unique(list: seq<AuthInfo>) {
    forall i, j | 0 <= i < j < |list| :: !SameSlot(list[i], list[j])
  }

  predicate KeyedUnique(list: seq<AuthInfo>) {
    forall i, j | 0 <= i < j < |list| && Keyed(list[i]) && Keyed(list[j]) :: !SameSlot(list[i], list[j])
  }

  lemma SameSlotEquivalence(a: AuthInfo, b: AuthInfo, c: AuthInfo)
    ensures SameSlot(a, b) ==> SameSlot(b, a)
    ensures SameSlot(a, b) && SameSlot(b, c) ==> SameSlot(a, c)
  {
  }

  /** Passing the test on all three is being in the slot. */
  lemma SlotIsTest(a: AuthInfo, info: AuthInfo)
    requires Keyed(info)
    ensures SameSlot(a, info) <==> Test(info.username.value, info.realm, info.domain, None, false)(a)
    ensures SameSlot(a, info) ==> Test(info.username.value, info.realm, None, None, false)(a)
  {
    hide Unquoted;
    RealmMatchIsEquivalence(a.realm, info.realm);
    RealmMatchIsEquivalence(info.realm, a.realm);
  }

  /** How the first two levels decide the public lookup. */
  lemma FindByRealm(list: seq<AuthInfo>, info: AuthInfo)
    requires info.realm.Some? && info.domain.Some?
    ensures var byRealm := FindLevel(list, info.username, info.realm, None, None, false);
            var byBoth := FindLevel(list, info.username, info.realm, info.domain, None, false);
            var r := FindPublic(list, info.realm, info.username, info.domain);
            (byRealm.Some? ==> r == byRealm) && (byRealm.None? && byBoth.Some? ==> r == byBoth)
  {
    hide FindLevel;
  }

  /** With a realm and a domain, the lookup of an occupied slot finds an entry of that slot. */
  lemma FindsOccupant(list: seq<AuthInfo>, info: AuthInfo, e: nat)
    requires Keyed(info) && e < |list| && SameSlot(list[e], info)
    ensures Replaced(list, info).Some? && SameSlot(list[Replaced(list, info).value], info)
  {
    hide FindLevel, FindPublic, RealmMatch, Test;
    var u := info.username.value;
    FindByRealm(list, info);
    SlotIsTest(list[e], info);
    LevelSpec(list, u, info.realm, None, None, false);
    LevelSpec(list, u, info.realm, info.domain, None, false);
    var byBoth := FindLevel(list, info.username, info.realm, info.domain, None, false);
    if byBoth.Some? { SlotIsTest(list[byBoth.value], info); }
  }

  lemma DropKeepsUnique(list: seq<AuthInfo>, i: nat)
    requires i < |list|
    ensures Unique(list) ==> Unique(Drop(list, i))
    ensures KeyedUnique(list) ==> KeyedUnique(Drop(list, i))
    ensures forall k | 0 <= k < |list| - 1 :: Drop(list, i)[k] == list[if k < i then k else k + 1]
  {
    var d := Drop(list, i);
    assert forall k | 0 <= k < |d| :: d[k] == list[if k < i then k else k + 1];
  }

  /** In a store that is unique so far, the entry evicted is the occupant. */
  lemma OccupantEvicted(list: seq<AuthInfo>, info: AuthInfo, e: nat)
    requires KeyedUnique(list) && Keyed(info) && e < |list| && SameSlot(list[e], info)
    ensures Replaced(list, info) == Some(e)
  {
    hide RealmMatch, FindPublic;
    FindsOccupant(list, info, e);
    var r := Replaced(list, info).value;
    SameSlotSymmetric(list[r], info);
    SameSlotSymmetric(list[e], info);
    SameSlotTransitive(list[e], info, list[r]);
    SameSlotTransitive(list[r], info, list[e]);
  }

  lemma KeyedAppend(kept: seq<AuthInfo>, info: AuthInfo)
    requires KeyedUnique(kept)
    requires Keyed(info) ==> forall k | 0 <= k < |kept| && Keyed(kept[k]) :: !SameSlot(kept[k], info)
    ensures KeyedUnique(kept + [info])
  {
    hide SameSlot, Keyed;
  }

  /** A keyed entry evicts its slot; any other entry is no concern of the keyed ones. */
  lemma AddKeepsKeyedUnique(list: seq<AuthInfo>, info: AuthInfo)
    requires KeyedUnique(list)
    ensures KeyedUnique(Added(list, info))
  {
    hide KeyedUnique, SameSlot, Keyed, Replaced, Usable, Kept, Added;
    if !Usable(info) {
      UnusableIsSafe(list, info);
    } else {
      var r := Replaced(list, info);
      var kept := Kept(list, r);
      AddedIsKept(list, info);
      KeptUnique(list, r);
      KeptMembers(list, r);
      forall k | 0 <= k < |kept| && Keyed(info) ensures !SameSlot(kept[k], info) {
        if SameSlot(kept[k], info) { OccupantEvicted(list, info, Origin(r, k)); }
      }
      KeyedAppend(kept, info);
    }
  }

  lemma SameSlotSymmetric(a: AuthInfo, b: AuthInfo)
    requires SameSlot(a, b)
    ensures SameSlot(b, a) && (Keyed(b) ==> Keyed(a))
  {
    SameSlotEquivalence(a, b, a);
  }

  lemma SameSlotTransitive(a: AuthInfo, b: AuthInfo, c: AuthInfo)
    requires SameSlot(a, b) && SameSlot(c, b)
    ensures SameSlot(a, c)
  {
    SameSlotEquivalence(c, b, c);
    SameSlotEquivalence(a, b, c);
  }

  datatype Op = AddOp(info: AuthInfo) | RemoveOp(info: AuthInfo) | ClearOp

  function Apply(list: seq<AuthInfo>, op: Op): seq<AuthInfo> {
    match op
    case AddOp(info) => Added(list, info)
    case RemoveOp(info) => Removed(list, info)
    case ClearOp => []
  }

  function ApplyAll(list: seq<AuthInfo>, ops: seq<Op>): seq<AuthInfo> {
    if ops == [] then list else Apply(ApplyAll(list, ops[..|ops| - 1]), ops[|ops| - 1])
  }

  /**
   * Over any sequence of adds, removes and clears of any entries, no two stored entries that have a user, a
   * realm and a domain share the user, a matching realm and the domain.
   */
  lemma {:induction false} StoreStaysUnique(ops: seq<Op>)
    ensures KeyedUnique(ApplyAll([], ops))
  {
    hide Added, KeyedUnique, Find;
    if ops == [] {
      assert KeyedUnique([]) by { EmptyUnique(); }
    } else {
      var n := |ops| - 1;
      StoreStaysUnique(ops[..n]);
      var list := ApplyAll([], ops[..n]);
      match ops[n]
      case AddOp(info) => AddKeepsKeyedUnique(list, info);
      case RemoveOp(info) =>
        FindInRange(list, info.realm, info.username, info.domain, None, true);
        var r := FindPublic(list, info.realm, info.username, info.domain);
        if r.Some? { DropKeepsUnique(list, r.value); }
      case ClearOp => EmptyUnique();
    }
  }

  lemma EmptyUnique()
    ensures KeyedUnique([]) && Unique([])
  {
  }

  // ---- What adding and removing do to the other entries -------------------------------------------------

  /**
   * Nothing is stored without a key, a hash or a password. Anything else goes to the end, and takes the place of at
   * most one entry, of the same user and domain; all others stay, in order.
   */
  lemma AddedIsReplacement(list: seq<AuthInfo>, info: AuthInfo)
    ensures if info.tlsKey.None? && info.tlsKeyPath.None? && info.ha1.None? && info.password.None?
            then Added(list, info) == list
            else Added(list, info) == list + [info]
                 || exists i: nat :: i < |list| && info.domain.Some? && list[i].username == info.username
                                     && list[i].domain == info.domain
                                     && Added(list, info) == list[..i] + list[i + 1..] + [info]
  {
    hide Find;
    FindInRange(list, info.realm, info.username, info.domain, None, true);
    var r := Replaced(list, info);
    if r.Some? && Usable(info) {
      assert Added(list, info) == list[..r.value] + list[r.value + 1..] + [info];
    }
  }

  /** A removal takes out exactly the entry the lookup declares, or nothing if the user has none. */
  lemma RemovedIsDeclared(list: seq<AuthInfo>, info: AuthInfo)
    ensures if info.username.Some? && exists e <- list :: e.username == info.username
            then exists i: nat :: i < |list| && Removed(list, info) == list[..i] + list[i + 1..]
                                  && Declared(list, info.realm, info.username.value, info.domain, None, true, Some(i))
            else Removed(list, info) == list
  {
    hide Find, Declared;
    FindInRange(list, info.realm, info.username, info.domain, None, true);
    NoUserNoResult(list, info.realm, info.domain, None, true);
    if info.username.Some? {
      PublicFindsUser(list, info.realm, info.username.value, info.domain);
      FindIsDeclared(list, info.realm, info.username.value, info.domain, None, true);
      var r := FindPublic(list, info.realm, info.username, info.domain);
      if r.Some? { assert Removed(list, info) == list[..r.value] + list[r.value + 1..]; }
    }
  }

  /** With user, realm and domain given, the slot is free afterwards. */
  lemma RemovalFreesSlot(list: seq<AuthInfo>, info: AuthInfo)
    requires KeyedUnique(list) && Keyed(info)
    ensures forall e <- Removed(list, info) :: !SameSlot(e, info)
  {
    hide RealmMatch, Find;
    FindInRange(list, info.realm, info.username, info.domain, None, true);
    var r := FindPublic(list, info.realm, info.username, info.domain);
    forall k | 0 <= k < |Kept(list, r)| ensures !SameSlot(Kept(list, r)[k], info) {
      KeptMembers(list, r);
      var e := Origin(r, k);
      if SameSlot(list[e], info) { OccupantEvicted(list, info, e); }
    }
    assert Removed(list, info) == Kept(list, r);
  }

  /**
   * So a removal takes out the entry of the slot given if there is one; but if there is none and the user has other
   * entries, one of those goes.
   */
  lemma RemovalBySlot(list: seq<AuthInfo>, info: AuthInfo)
    requires KeyedUnique(list) && Keyed(info)
    ensures forall e | 0 <= e < |list| && SameSlot(list[e], info) :: Removed(list, info) == list[..e] + list[e + 1..]
    ensures (forall e <- list :: !SameSlot(e, info)) && (exists e <- list :: e.username == info.username) ==>
              exists i: nat :: i < |list| && list[i].username == info.username
                               && Removed(list, info) == list[..i] + list[i + 1..]
    ensures (forall e <- list :: e.username != info.username) ==> Removed(list, info) == list
  {
    hide RealmMatch, Find, SameSlot, KeyedUnique;
    FindInRange(list, info.realm, info.username, info.domain, None, true);
    PublicFindsUser(list, info.realm, info.username.value, info.domain);
    var r := FindPublic(list, info.realm, info.username, info.domain);
    forall e | 0 <= e < |list| && SameSlot(list[e], info)
      ensures Removed(list, info) == list[..e] + list[e + 1..]
    {
      OccupantEvicted(list, info, e);
    }
    if r.Some? { assert Removed(list, info) == list[..r.value] + list[r.value + 1..]; }
  }

  /** The failing removal: the user's only entry goes, although another realm and domain were named. */
  lemma RemovalStrikesOther()
    ensures var kept, named := Sample(Some("r"), "d"), Sample(Some("s"), "e");
            !SameSlot(kept, named) && Removed([kept], named) == []
  {
    hide Find;
    var kept, named := Sample(Some("r"), "d"), Sample(Some("s"), "e");
    assert "d" != "e" by { assert "d"[0] != "e"[0]; }
    PublicFindsUser([kept], named.realm, "u", named.domain);
    FindInRange([kept], named.realm, named.username, named.domain, None, true);
    assert kept in [kept];
  }

  // ---- Entries without a realm ----------------------------------------------------------------------

  function OfUserAndDomain(info: AuthInfo): AuthInfo -> bool {
    (ai: AuthInfo) => ai.username == info.username && ai.domain == info.domain
  }

  /** Whether adding keeps all slots unique, read off the list and the entry. */
  predicate SafeAdd(list: seq<AuthInfo>, info: AuthInfo) {
    || !Usable(info)
    || (forall e <- list :: !SameSlot(e, info))
    || (info.username.Some? && info.domain.Some?
        && (info.realm.Some?
            || var f := First(list, OfUserAndDomain(info));
               f.Some? && list[f.value].realm.None?))
  }

  /** The entry replaced by one without a realm is the first with its user and domain, whatever its realm. */
  lemma ReplacedWithoutRealm(list: seq<AuthInfo>, info: AuthInfo)
    requires info.username.Some? && info.domain.Some? && info.realm.None?
    ensures Replaced(list, info) == First(list, OfUserAndDomain(info))
  {
    hide FindLevel;
    LevelSpec(list, info.username.value, None, info.domain, None, true);
    LevelSpec(list, info.username.value, None, None, None, true);
    var q, p := OfUserAndDomain(info), Test(info.username.value, None, info.domain, None, true);
    assert forall ai :: p(ai) == q(ai);
  }

  lemma AppendUnique(kept: seq<AuthInfo>, info: AuthInfo)
    requires Unique(kept)
    ensures Unique(kept + [info]) <==> forall k | 0 <= k < |kept| :: !SameSlot(kept[k], info)
  {
    hide SameSlot;
    var added := kept + [info];
    if Unique(added) {
      forall k | 0 <= k < |kept| ensures !SameSlot(kept[k], info) {
        assert added[k] == kept[k] && added[|kept|] == info;
      }
    }
  }

  lemma NoOccupantIsSafe(list: seq<AuthInfo>, info: AuthInfo)
    requires forall e | 0 <= e < |list| :: !SameSlot(list[e], info)
    ensures SafeAdd(list, info)
  {
    hide SameSlot;
  }

  /** Adding keeps every slot unique, null realms included, if and only if the add is safe. */
  lemma AddKeepsUniqueIffSafe(list: seq<AuthInfo>, info: AuthInfo)
    requires Unique(list)
    ensures Unique(Added(list, info)) <==> SafeAdd(list, info)
  {
    hide Unique, SameSlot, SafeAdd, Replaced, Usable, Kept, Added;
    if !Usable(info) {
      UnusableIsSafe(list, info);
    } else {
      var r := Replaced(list, info);
      var kept := Kept(list, r);
      AddedIsKept(list, info);
      KeptUnique(list, r);
      AppendUnique(kept, info);
      if e :| 0 <= e < |list| && SameSlot(list[e], info) {
        OnlyOccupant(list, info, e);
        if r == Some(e) {
          OccupantGone(list, info, e);
          ReplacingOccupantIsSafe(list, info, e);
        } else {
          OccupantStays(list, r, e);
          KeepingOccupantIsUnsafe(list, info, e);
        }
      } else {
        KeptMembers(list, r);
        NoOccupantIsSafe(list, info);
      }
    }
  }

  lemma AddedIsKept(list: seq<AuthInfo>, info: AuthInfo)
    requires Usable(info)
    ensures Added(list, info) == Kept(list, Replaced(list, info)) + [info]
  {
    hide Replaced, Usable;
  }

  /** What is left of the list before the new entry is appended. */
  function Kept(list: seq<AuthInfo>, r: Option<nat>): seq<AuthInfo>
    requires r.Some? ==> r.value < |list|
  {
    if r.Some? then Drop(list, r.value) else list
  }

  lemma KeptUnique(list: seq<AuthInfo>, r: Option<nat>)
    requires r.Some? ==> r.value < |list|
    ensures Unique(list) ==> Unique(Kept(list, r))
    ensures KeyedUnique(list) ==> KeyedUnique(Kept(list, r))
  {
    hide Unique, KeyedUnique;
    if r.Some? { DropKeepsUnique(list, r.value); }
  }

  /** Where the k-th entry kept stood before. */
  function Origin(r: Option<nat>, k: nat): nat { if r.Some? && k >= r.value then k + 1 else k }

  /** Everything kept was in the list, elsewhere than at the position dropped. */
  lemma KeptMembers(list: seq<AuthInfo>, r: Option<nat>)
    requires r.Some? ==> r.value < |list|
    ensures forall k | 0 <= k < |Kept(list, r)| ::
              Origin(r, k) < |list| && Some(Origin(r, k)) != r && Kept(list, r)[k] == list[Origin(r, k)]
  {
  }

  lemma OccupantGone(list: seq<AuthInfo>, info: AuthInfo, e: nat)
    requires e < |list| && forall k | 0 <= k < |list| && k != e :: !SameSlot(list[k], info)
    ensures forall k | 0 <= k < |Kept(list, Some(e))| :: !SameSlot(Kept(list, Some(e))[k], info)
  {
    hide SameSlot, Kept;
    KeptMembers(list, Some(e));
  }

  lemma OccupantStays(list: seq<AuthInfo>, r: Option<nat>, e: nat)
    requires (r.Some? ==> r.value < |list|) && e < |list| && r != Some(e)
    ensures exists k :: 0 <= k < |Kept(list, r)| && Kept(list, r)[k] == list[e]
  {
    var k := if r.Some? && e > r.value then e - 1 else e;
    assert Kept(list, r)[k] == list[e];
  }

  lemma UnusableIsSafe(list: seq<AuthInfo>, info: AuthInfo)
    requires !Usable(info)
    ensures SafeAdd(list, info) && Added(list, info) == list
  {
  }

  lemma OnlyOccupant(list: seq<AuthInfo>, info: AuthInfo, e: nat)
    requires Unique(list) && e < |list| && SameSlot(list[e], info)
    ensures forall k | 0 <= k < |list| && k != e :: !SameSlot(list[k], info)
  {
    forall k | 0 <= k < |list| && k != e ensures !SameSlot(list[k], info) {
      if SameSlot(list[k], info) {
        SameSlotTransitive(list[k], info, list[e]);
        SameSlotTransitive(list[e], info, list[k]);
      }
    }
  }

  lemma ReplacingOccupantIsSafe(list: seq<AuthInfo>, info: AuthInfo, e: nat)
    requires e < |list| && SameSlot(list[e], info) && Replaced(list, info) == Some(e)
    ensures SafeAdd(list, info)
  {
    FindInRange(list, info.realm, info.username, info.domain, None, true);
    if info.realm.None? { ReplacedWithoutRealm(list, info); }
  }

  lemma KeepingOccupantIsUnsafe(list: seq<AuthInfo>, info: AuthInfo, e: nat)
    requires Unique(list) && Usable(info) && e < |list| && SameSlot(list[e], info) && Replaced(list, info) != Some(e)
    ensures !SafeAdd(list, info)
  {
    OnlyOccupant(list, info, e);
    assert list[e] in list;
    if info.username.Some? && info.domain.Some? {
      if info.realm.Some? {
        FindsOccupant(list, info, e);
      } else {
        ReplacedWithoutRealm(list, info);
      }
    }
  }

  function Sample(realm: Option<string>, domain: string): AuthInfo {
    AuthInfo(Some("u"), realm, Some(domain), Some("p"), None, None, None, None)
  }

  /** The failing run: an entry without a realm stored twice. */
  lemma NullRealmDuplicates()
    ensures !Unique(ApplyAll([], [AddOp(Sample(Some("r"), "d1")), AddOp(Sample(Some("s"), "d")),
                                  AddOp(Sample(Some("r"), "d")), AddOp(Sample(None, "d")), AddOp(Sample(None, "d"))]))
  {
    hide ApplyAll;
    var a, b, c, n := Sample(Some("r"), "d1"), Sample(Some("s"), "d"), Sample(Some("r"), "d"), Sample(None, "d");
    assert !RealmMatch(Some("r"), Some("s")) by { assert UpToQuote("r") == "r" && UpToQuote("s") == "s"; }
    assert "d1" != "d" by { assert |"d1"| == 2; }
    DuplicateRun(a, b, c, n);
    var list := [a, n, n];
    assert SameSlot(list[1], list[2]);
  }

  /** The same run with any entries of this shape. */
  lemma DuplicateRun(a: AuthInfo, b: AuthInfo, c: AuthInfo, n: AuthInfo)
    requires Usable(a) && Usable(b) && Usable(c) && Usable(n)
    requires a.username.Some? && b.username == a.username && c.username == a.username && n.username == a.username
    requires n.domain.Some? && b.domain == n.domain && c.domain == n.domain && a.domain != n.domain
    requires a.realm.Some? && c.realm == a.realm && n.realm.None? && !RealmMatch(c.realm, b.realm)
    ensures ApplyAll([], [AddOp(a), AddOp(b), AddOp(c), AddOp(n), AddOp(n)]) == [a, n, n]
  {
    hide Added, ApplyAll, RealmMatch, Usable;
    var oa, ob, oc, on := AddOp(a), AddOp(b), AddOp(c), AddOp(n);
    EmptyRun();
    ApplyAllSnoc([], oa);
    ReplacedNone([], a);
    assert [] + [oa] == [oa];
    ApplyAllSnoc([oa], ob);
    ReplacedOther(a, b);
    assert [oa] + [ob] == [oa, ob];
    ApplyAllSnoc([oa, ob], oc);
    ReplacedElsewhere(a, b, c);
    assert [oa, ob] + [oc] == [oa, ob, oc];
    ApplyAllSnoc([oa, ob, oc], on);
    ReplacedSecond(a, b, [c], n);
    assert [a, b] + [c] == [a, b, c] && [a] + [c] + [n] == [a, c, n];
    assert [oa, ob, oc] + [on] == [oa, ob, oc, on];
    ApplyAllSnoc([oa, ob, oc, on], on);
    ReplacedSecond(a, c, [n], n);
    assert [a, c] + [n] == [a, c, n] && [a] + [n] + [n] == [a, n, n];
    assert [oa, ob, oc, on] + [on] == [oa, ob, oc, on, on];
  }

  lemma EmptyRun()
    ensures ApplyAll([], []) == []
  {
  }

  lemma ApplyAllSnoc(ops: seq<Op>, op: Op)
    ensures ApplyAll([], ops + [op]) == Apply(ApplyAll([], ops), op)
  {
    hide Apply;
    assert (ops + [op])[..|ops|] == ops;
  }

  lemma ReplacedNone(list: seq<AuthInfo>, info: AuthInfo)
    requires list == [] && Usable(info)
    ensures Added(list, info) == [info]
  {
  }

  /** Without a realm, the first entry with the same user and domain goes, here the second of the list. */
  lemma ReplacedSecond(a: AuthInfo, b: AuthInfo, rest: seq<AuthInfo>, n: AuthInfo)
    requires Usable(n) && n.username.Some? && n.domain.Some? && n.realm.None?
    requires a.domain != n.domain && b.username == n.username && b.domain == n.domain
    ensures Added([a, b] + rest, n) == [a] + rest + [n]
  {
    hide FindPublic;
    var list := [a, b] + rest;
    ReplacedWithoutRealm(list, n);
    assert OfUserAndDomain(n)(list[1]) && !OfUserAndDomain(n)(list[0]);
    assert Replaced(list, n) == Some(1);
    assert Drop(list, 1) == [a] + rest;
  }

  lemma ReplacedOther(a: AuthInfo, b: AuthInfo)
    requires Usable(b) && a.domain != b.domain
    ensures Added([a], b) == [a, b]
  {
    hide FindPublic;
    FindInRange([a], b.realm, b.username, b.domain, None, true);
  }

  /** A unique realm match of another domain hides the entries of the same domain. */
  lemma ReplacedElsewhere(a: AuthInfo, b: AuthInfo, c: AuthInfo)
    requires Usable(c) && a.username == c.username && c.username.Some? && a.domain != c.domain
    requires a.realm.Some? && a.realm == c.realm && !RealmMatch(c.realm, b.realm)
    ensures Added([a, b], c) == [a, b, c]
  {
    hide FindLevel;
    var list := [a, b];
    LevelSpec(list, c.username.value, c.realm, None, None, false);
    var p := Test(c.username.value, c.realm, None, None, false);
    assert p(list[0]) && !p(list[1]);
  }

  // ---- The store ------------------------------------------------------------------------------------

  class CredentialStore {
    var authInfo: seq<AuthInfo>

    ghost predicate Valid() reads this { forall ai <- authInfo :: ShortRealm(ai.realm) }

    constructor ()
      ensures authInfo == [] && Valid()
    {
      authInfo := [];
    }

    /** The single pass over the list: returns at the first hit, except on a realm alone, which must be unique. */
    method FindAuthInfo(username: Option<string>, realm: Option<string>, domain: Option<string>,
                        algorithm: Option<string>, ignoreRealm: bool) returns (r: Option<nat>)
      requires Valid() && ShortRealm(realm)
      ensures r == FindLevel(authInfo, username, realm, domain, algorithm, ignoreRealm)
    {
      hide RealmMatch, Compatible;
      r := None;
      if username.None? { return; }
      ghost var p := Test(username.value, realm, domain, algorithm, ignoreRealm);
      var i := 0;
      while i < |authInfo|
        invariant i <= |authInfo|
        invariant r.None? ==> forall j | 0 <= j < i :: !p(authInfo[j])
        invariant r.Some? ==> realm.Some? && domain.None? && r.value < i && p(authInfo[r.value])
                              && forall j | 0 <= j < i && j != r.value :: !p(authInfo[j])
      {
        var ai := authInfo[i];
        if ai.username == username && Compatible(ai, algorithm) {
          var realmOk := false;
          if realm.Some? && ai.realm.Some? { realmOk := RealmsMatch(realm, ai.realm); }
          if realm.Some? && domain.Some? {
            if realmOk && ai.domain == domain {
              LevelIsFirst(authInfo, username.value, realm, domain, algorithm, ignoreRealm, i);
              return Some(i);
            }
          } else if realm.Some? {
            if realmOk {
              if r.Some? {
                LevelIsAmbiguous(authInfo, username.value, realm.value, algorithm, ignoreRealm, r.value, i);
                return None;
              }
              r := Some(i);
            }
          } else if domain.Some? && ai.domain == domain && (ai.ha1.None? || ignoreRealm) {
            LevelIsFirst(authInfo, username.value, realm, domain, algorithm, ignoreRealm, i);
            return Some(i);
          } else if domain.None? && (ai.ha1.None? || ignoreRealm) {
            LevelIsFirst(authInfo, username.value, realm, domain, algorithm, ignoreRealm, i);
            return Some(i);
          }
        }
        i := i + 1;
      }
      LevelAtEnd(authInfo, username.value, realm, domain, algorithm, ignoreRealm, r);
    }

    method FindAll(realm: Option<string>, username: Option<string>, domain: Option<string>,
                   algorithm: Option<string>, ignoreRealm: bool) returns (ai: Option<nat>)
      requires Valid() && ShortRealm(realm)
      ensures ai == Find(authInfo, realm, username, domain, algorithm, ignoreRealm)
      ensures if username.None? then ai.None?
              else Declared(authInfo, realm, username.value, domain, algorithm, ignoreRealm, ai)
    {
      hide FindLevel, Declared;
      if username.Some? { FindIsDeclared(authInfo, realm, username.value, domain, algorithm, ignoreRealm); }
      NoUserNoResult(authInfo, realm, domain, algorithm, ignoreRealm);
      ai := None;
      if realm.Some? {
        ai := FindAuthInfo(username, realm, None, algorithm, false);
        if ai.None? && domain.Some? { ai := FindAuthInfo(username, realm, domain, algorithm, false); }
      }
      if ai.None? && domain.Some? { ai := FindAuthInfo(username, None, domain, algorithm, ignoreRealm); }
      if ai.None? { ai := FindAuthInfo(username, None, None, algorithm, ignoreRealm); }
    }

    method AddAuthInfo(info: AuthInfo)
      requires Valid() && ShortRealm(info.realm)
      modifies this
      ensures Valid() && authInfo == Added(old(authInfo), info)
      ensures old(KeyedUnique(authInfo)) ==> KeyedUnique(authInfo)
    {
      hide Find, KeyedUnique;
      if KeyedUnique(authInfo) { AddKeepsKeyedUnique(authInfo, info); }
      if info.tlsKey.None? && info.tlsKeyPath.None? && info.ha1.None? && info.password.None? { return; }
      var ai := FindAll(info.realm, info.username, info.domain, None, true);
      FindInRange(authInfo, info.realm, info.username, info.domain, None, true);
      if ai.Some? && info.domain.Some? && authInfo[ai.value].domain == info.domain {
        authInfo := authInfo[..ai.value] + authInfo[ai.value + 1..];
      }
      authInfo := authInfo + [info];
    }

    method RemoveAuthInfo(info: AuthInfo)
      requires Valid() && ShortRealm(info.realm)
      modifies this
      ensures Valid() && authInfo == Removed(old(authInfo), info)
    {
      hide Find;
      var r := FindAll(info.realm, info.username, info.domain, None, true);
      FindInRange(authInfo, info.realm, info.username, info.domain, None, true);
      if r.Some? { authInfo := authInfo[..r.value] + authInfo[r.value + 1..]; }
    }

    method ClearAllAuthInfo()
      modifies this
      ensures Valid() && authInfo == []
    {
      authInfo := [];
    }
  }

  lemma LevelIsFirst(list: seq<AuthInfo>, u: string, realm: Option<string>, domain: Option<string>,
                     algorithm: Option<string>, ignoreRealm: bool, i: nat)
    requires !(realm.Some? && domain.None?)
    requires i < |list| && Test(u, realm, domain, algorithm, ignoreRealm)(list[i])
    requires forall j | 0 <= j < i :: !Test(u, realm, domain, algorithm, ignoreRealm)(list[j])
    ensures FindLevel(list, Some(u), realm, domain, algorithm, ignoreRealm) == Some(i)
  {
    hide FindLevel, Test;
    LevelSpec(list, u, realm, domain, algorithm, ignoreRealm);
  }

  lemma LevelIsAmbiguous(list: seq<AuthInfo>, u: string, realm: string, algorithm: Option<string>, ignoreRealm: bool,
                         i: nat, j: nat)
    requires i < j < |list|
    requires Test(u, Some(realm), None, algorithm, ignoreRealm)(list[i])
    requires Test(u, Some(realm), None, algorithm, ignoreRealm)(list[j])
    ensures FindLevel(list, Some(u), Some(realm), None, algorithm, ignoreRealm) == None
  {
    hide FindLevel, Test;
    LevelSpec(list, u, Some(realm), None, algorithm, ignoreRealm);
  }

  lemma LevelAtEnd(list: seq<AuthInfo>, u: string, realm: Option<string>, domain: Option<string>,
                   algorithm: Option<string>, ignoreRealm: bool, r: Option<nat>)
    requires r.None? ==> forall j | 0 <= j < |list| :: !Test(u, realm, domain, algorithm, ignoreRealm)(list[j])
    requires r.Some? ==> realm.Some? && domain.None? && r.value < |list|
                         && Test(u, realm, domain, algorithm, ignoreRealm)(list[r.value])
                         && forall j | 0 <= j < |list| && j != r.value ::
                              !Test(u, realm, domain, algorithm, ignoreRealm)(list[j])
    ensures FindLevel(list, Some(u), realm, domain, algorithm, ignoreRealm) == r
  {
    hide FindLevel, Test;
    LevelSpec(list, u, realm, domain, algorithm, ignoreRealm);
  }
}
