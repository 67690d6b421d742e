/**
 * A tunnel configuration as text: `linphone_tunnel_config_to_string`, `linphone_tunnel_config_from_string`
 * and the loops of `linphone_tunnel_save_config` and `linphone_tunnel_load_config` in
 * coreapi/linphone_tunnel.cc, down to `strtok`, `atoi`, "%d" and "%s".
 */
module TunnelText {
  import opened Bytes

  type int32 = x: int | -0x8000_0000 <= x < 0x8000_0000

  /** The fields of `LinphoneTunnelConfig`; a host is never the empty string. */
  datatype Config = Config(host: Option<string>, port: int32, mirrorPort: int32, delay: int32,
                           host2: Option<string>, port2: int32)

  // ---- Decimal numbers ------------------------------------------------------------------------------

  predicate IsDigit(c: char) { '0' <= c <= '9' }

  predicate IsSpace(c: char) { c == ' ' || c == '\t' || c == '\n' || c == '\r' || c as int == 11 || c as int == 12 }

  function DigitChar(d: nat): char
    requires d < 10
  {
    '0' + d as char
  }

  function NatToString(n: nat): (s: string)
    ensures s != [] && forall c <- s :: IsDigit(c)
  {
    if n < 10 then [DigitChar(n)] else NatToString(n / 10) + [DigitChar(n % 10)]
  }

  /** "%d". */
  function IntToString(n: int): (s: string)
    ensures s != [] && forall c <- s :: IsDigit(c) || c == '-'
  {
    if n < 0 then "-" + NatToString(-n) else NatToString(n)
  }

  /** The value of `v` followed by the digits `s` starts with. */
  function ReadDigits(v: int, s: string): int
    decreases |s|
  {
    if s == [] || !IsDigit(s[0]) then v else ReadDigits(10 * v + (s[0] - '0') as int, s[1..])
  }

  function SkipSpaces(s: string): string {
    if s == [] || !IsSpace(s[0]) then s else SkipSpaces(s[1..])
  }

  /** `atoi`, on the numbers an int can hold; beyond them the library function is undefined. */
  function Atoi(s: string): int {
    var t := SkipSpaces(s);
    if t == [] then 0
    else if t[0] == '-' then -ReadDigits(0, t[1..])
    else if t[0] == '+' then ReadDigits(0, t[1..])
    else ReadDigits(0, t)
  }

  lemma {:induction false} ReadDigitsSnoc(v: int, s: string, c: char)
    requires (forall d <- s :: IsDigit(d)) && IsDigit(c)
    ensures ReadDigits(v, s + [c]) == 10 * ReadDigits(v, s) + (c - '0') as int
    decreases |s|
  {
    if s == [] {
      assert (s + [c])[1..] == [];
    } else {
      assert (s + [c])[1..] == s[1..] + [c] && IsDigit(s[0]);
      ReadDigitsSnoc(10 * v + (s[0] - '0') as int, s[1..], c);
    }
  }

  lemma {:induction false} ReadNat(n: nat)
    ensures ReadDigits(0, NatToString(n)) == n
  {
    if n < 10 {
      var s := NatToString(n);
      assert s == [DigitChar(n)] && s[1..] == [];
      assert (s[0] - '0') as int == n;
    } else {
      ReadNat(n / 10);
      ReadDigitsSnoc(0, NatToString(n / 10), DigitChar(n % 10));
    }
  }

  /** A printed number reads back. */
  lemma AtoiRoundTrip(n: int)
    ensures Atoi(IntToString(n)) == n
  {
    var s := IntToString(n);
    assert s[0] in s && SkipSpaces(s) == s;
    if n < 0 {
      assert s[1..] == NatToString(-n);
      ReadNat(-n);
    } else {
      assert IsDigit(NatToString(n)[0]);
      ReadNat(n);
    }
  }

  /** A printed number has a sign only if it is negative, and no leading zero. */
  lemma {:induction false} PrintedNumber(n: nat)
    ensures IntToString(n) == NatToString(n) && (n > 0 ==> NatToString(n)[0] != '0')
    ensures n > 0 ==> IntToString(0 - n) == "-" + NatToString(n)
  {
    if n >= 10 { PrintedNumber(n / 10); }
  }

  lemma {:induction false} ReadDigitsStops(v: int, s: string, rest: string)
    requires (forall d <- s :: IsDigit(d)) && (rest == [] || !IsDigit(rest[0]))
    ensures ReadDigits(v, s + rest) == ReadDigits(v, s)
    decreases |s|
  {
    if s == [] {
      assert s + rest == rest;
    } else {
      assert (s + rest)[1..] == s[1..] + rest && IsDigit(s[0]);
      ReadDigitsStops(10 * v + (s[0] - '0') as int, s[1..], rest);
    }
  }

  lemma {:induction false} SpacesSkipped(blanks: string, s: string)
    requires (forall c <- blanks :: IsSpace(c)) && (s == [] || !IsSpace(s[0]))
    ensures SkipSpaces(blanks + s) == s
    decreases |blanks|
  {
    if blanks == [] {
      assert blanks + s == s;
    } else {
      assert (blanks + s)[1..] == blanks[1..] + s && IsSpace(blanks[0]);
      SpacesSkipped(blanks[1..], s);
    }
  }

  /** Blanks are skipped, a sign is heeded, the digits are read, and what follows them is ignored. */
  lemma AtoiReads(blanks: string, sign: string, n: nat, rest: string)
    requires (forall c <- blanks :: IsSpace(c)) && (rest == [] || !IsDigit(rest[0]))
    requires sign == "" || sign == "+" || sign == "-"
    ensures Atoi(blanks + (sign + (NatToString(n) + rest))) == if sign == "-" then 0 - n else n
  {
    hide NatToString, ReadDigits;
    var digits := NatToString(n);
    var t := sign + (digits + rest);
    assert IsDigit(digits[0]) && (digits + rest)[0] == digits[0];
    assert sign == "" ==> t == digits + rest;
    assert sign != "" ==> t[0] == sign[0] && t[1..] == digits + rest;
    SpacesSkipped(blanks, t);
    ReadDigitsStops(0, digits, rest);
    ReadNat(n);
  }

  /** Without a number there is zero. */
  lemma AtoiOfNothing(blanks: string, rest: string)
    requires forall c <- blanks :: IsSpace(c)
    requires rest == [] || !(IsSpace(rest[0]) || IsDigit(rest[0]) || rest[0] == '-' || rest[0] == '+')
    ensures Atoi(blanks + rest) == 0
  {
    SpacesSkipped(blanks, rest);
  }

  // ---- Tokens -------------------------------------------------------------------------------------

  function DropSeps(s: string, sep: char -> bool): (r: string)
    ensures |r| <= |s| && (r != [] ==> !sep(r[0]))
  {
    if s == [] || !sep(s[0]) then s else DropSeps(s[1..], sep)
  }

  function TakeToken(s: string, sep: char -> bool): (r: string)
    ensures |r| <= |s| && s[..|r|] == r && (s != [] && !sep(s[0]) ==> r != [])
    ensures |r| < |s| ==> sep(s[|r|])
  {
    if s == [] || sep(s[0]) then [] else [s[0]] + TakeToken(s[1..], sep)
  }

  /** The tokens of `s`: its maximal non-empty runs free of separators. */
  function Split(s: string, sep: char -> bool): seq<string>
    decreases |s|
  {
    var t := DropSeps(s, sep);
    if t == [] then []
    else var a := TakeToken(t, sep); [a] + Split(t[|a|..], sep)
  }

  predicate Free(s: string, sep: char -> bool) { forall c <- s :: !sep(c) }

  lemma {:induction false} TakeFree(a: string, b: string, sep: char -> bool)
    requires Free(a, sep) && (b == [] || sep(b[0]))
    ensures TakeToken(a + b, sep) == a
    decreases |a|
  {
    if a == [] {
      assert a + b == b;
    } else {
      assert (a + b)[1..] == a[1..] + b;
      TakeFree(a[1..], b, sep);
    }
  }

  /** A token in front of a separator is split off. */
  lemma SplitToken(a: string, b: string, sep: char -> bool)
    requires a != [] && Free(a, sep) && (b == [] || sep(b[0]))
    ensures Split(a + b, sep) == [a] + Split(b, sep)
  {
    assert (a + b)[0] == a[0];
    TakeFree(a, b, sep);
    assert (a + b)[|a|..] == b;
  }

  lemma SplitWhole(a: string, sep: char -> bool)
    requires a != [] && Free(a, sep)
    ensures Split(a, sep) == [a]
  {
    assert a + [] == a;
    SplitToken(a, [], sep);
  }

  /** A leading separator is skipped. */
  lemma SplitSkips(d: char, b: string, sep: char -> bool)
    requires sep(d)
    ensures Split([d] + b, sep) == Split(b, sep)
  {
    assert ([d] + b)[1..] == b;
  }

  lemma SplitPair(a: string, d: char, b: string, sep: char -> bool)
    requires a != [] && Free(a, sep) && sep(d)
    ensures Split(a + [d] + b, sep) == [a] + Split(b, sep)
  {
    assert a + [d] + b == a + ([d] + b);
    SplitToken(a, [d] + b, sep);
    SplitSkips(d, b, sep);
  }

  lemma {:induction false} DropSepsAppend(s: string, r: string, sep: char -> bool)
    ensures DropSeps(s + r, sep) == if DropSeps(s, sep) == [] then DropSeps(r, sep) else DropSeps(s, sep) + r
    decreases |s|
  {
    if s == [] {
      assert s + r == r;
    } else if sep(s[0]) {
      assert (s + r)[1..] == s[1..] + r;
      DropSepsAppend(s[1..], r, sep);
    }
  }

  lemma TakeTokenFree(s: string, sep: char -> bool)
    ensures Free(TakeToken(s, sep), sep)
  {
    if s != [] && !sep(s[0]) { TakeTokenFree(s[1..], sep); }
  }

  /** Splitting distributes over text that starts with a separator. */
  lemma {:induction false} SplitConcat(s: string, r: string, sep: char -> bool)
    requires r != [] && sep(r[0])
    ensures Split(s + r, sep) == Split(s, sep) + Split(r, sep)
    decreases |s|, 1
  {
    hide DropSeps, TakeToken, Split;
    var t := DropSeps(s, sep);
    DropSepsAppend(s, r, sep);
    SplitDrops(s, sep);
    SplitDrops(s + r, sep);
    if t == [] {
      SplitDrops(r, sep);
    } else {
      var a := TakeToken(t, sep);
      TakeTokenFree(t, sep);
      SplitConcatToken(t, a, t[|a|..], r, sep);
    }
  }

  lemma {:induction false} SplitConcatToken(t: string, a: string, t': string, r: string, sep: char -> bool)
    requires t == a + t' && a != [] && Free(a, sep) && (t' == [] || sep(t'[0])) && r != [] && sep(r[0])
    ensures Split(t + r, sep) == Split(t, sep) + Split(r, sep)
    decreases |t|, 0
  {
    hide Split;
    SplitToken(a, t', sep);
    assert t + r == a + (t' + r) && (t' + r)[0] == if t' == [] then r[0] else t'[0];
    SplitToken(a, t' + r, sep);
    SplitConcat(t', r, sep);
  }

  /** Splitting distributes over a separator anywhere. */
  lemma SplitAppend(s: string, d: char, b: string, sep: char -> bool)
    requires sep(d)
    ensures Split(s + [d] + b, sep) == Split(s, sep) + Split(b, sep)
  {
    hide Split;
    assert s + [d] + b == s + ([d] + b);
    SplitConcat(s, [d] + b, sep);
    SplitSkips(d, b, sep);
  }

  /** Leading separators do not matter. */
  lemma SplitDrops(s: string, sep: char -> bool)
    ensures Split(DropSeps(s, sep), sep) == Split(s, sep)
    ensures DropSeps(s, sep) == [] ==> Split(s, sep) == []
  {
    var t := DropSeps(s, sep);
    assert DropSeps(t, sep) == t;
  }

  // ---- Printing -----------------------------------------------------------------------------------

  const Colon: char -> bool := c => c == ':'
  const Slash: char -> bool := c => c == '/'

  function Endpoint(host: string, port: int): string { host + ":" + IntToString(port) }

  /** The text before the slash. */
  function FirstPart(c: Config): string
    requires c.host.Some?
  {
    Endpoint(c.host.value, c.port)
    + if c.mirrorPort != -1 then ":" + IntToString(c.mirrorPort) + ":" + IntToString(c.delay) else ""
  }

  function ToString(c: Config): Option<string> {
    if c.host.None? then None
    else
      var first := FirstPart(c);
      Some(if c.host2.Some? then first + "/" + Endpoint(c.host2.value, c.port2) else first)
  }

  // ---- Parsing ------------------------------------------------------------------------------------

  /** The local variables of the parser. */
  datatype Fields = Fields(pos: nat, host: string, port: int, mirrorPort: int, delay: int)

  /** The switch: a fifth token aborts by restarting the position. */
  function Field(f: Fields, tok: string): Fields {
    match f.pos
    case 0 => f.(host := tok, pos := 1)
    case 1 => f.(port := Atoi(tok), pos := 2)
    case 2 => f.(mirrorPort := Atoi(tok), pos := 3)
    case 3 => f.(delay := Atoi(tok), pos := 4)
    case _ => f.(pos := 1)
  }

  function ReadFields(f: Fields, toks: seq<string>): Fields
    decreases |toks|
  {
    if toks == [] then f else ReadFields(Field(f, toks[0]), toks[1..])
  }

  /** An int32 taken from a number; the printer only emits numbers that fit. */
  function Narrow(n: int): int32 {
    if -0x8000_0000 <= n < 0x8000_0000 then n else (n + 0x8000_0000) % 0x1_0000_0000 - 0x8000_0000
  }

  const DEFAULT_DELAY: int32 := 1000

  function FromString(s: string): Option<Config> {
    var toks := Split(s, Slash);
    var f1 := ReadFields(Fields(0, "", -1, -1, -1), if |toks| >= 1 then Split(toks[0], Colon) else []);
    if f1.pos < 2 then None
    else
      var c := Config(Some(f1.host), Narrow(f1.port), if f1.pos >= 3 then Narrow(f1.mirrorPort) else -1,
                      if f1.pos == 4 then Narrow(f1.delay) else DEFAULT_DELAY, None, 0);
      if |toks| < 2 then Some(c)
      else
        var f2 := ReadFields(f1.(pos := 0), Split(toks[1], Colon));
        Some(if f2.pos >= 2 then c.(host2 := Some(f2.host), port2 := Narrow(f2.port)) else c)
  }

  /** `strtok` on the rest of a string: the next token and what is left after it. */
  method Strtok(s: string, sep: char -> bool) returns (tok: Option<string>, rest: string)
    ensures tok.None? ==> Split(s, sep) == []
    ensures tok.Some? ==> Split(s, sep) == [tok.value] + Split(rest, sep) && |rest| < |s|
  {
    var i := 0;
    while i < |s| && sep(s[i])
      invariant i <= |s| && DropSeps(s, sep) == DropSeps(s[i..], sep)
    {
      i := i + 1;
    }
    if i == |s| { return None, []; }
    var j := i;
    while j < |s| && !sep(s[j])
      invariant i <= j <= |s| && Free(s[i..j], sep)
    {
      j := j + 1;
    }
    var t := s[i..];
    assert t == s[i..j] + s[j..];
    TakeFree(s[i..j], s[j..], sep);
    return Some(s[i..j]), s[j..];
  }

  /** The two identical token loops of the parser. */
  method ParseFields(init: Fields, s: string) returns (f: Fields)
    ensures f == ReadFields(init, Split(s, Colon))
  {
    f := init;
    var pch, rest := Strtok(s, Colon);
    while pch.Some?
      invariant ReadFields(init, Split(s, Colon))
                == if pch.Some? then ReadFields(f, [pch.value] + Split(rest, Colon)) else f
      decreases pch.Some?, |rest|
    {
      ghost var toks := [pch.value] + Split(rest, Colon);
      assert toks[1..] == Split(rest, Colon);
      match f.pos {
        case 0 => f := f.(host := pch.value);
        case 1 => f := f.(port := Atoi(pch.value));
        case 2 => f := f.(mirrorPort := Atoi(pch.value));
        case 3 => f := f.(delay := Atoi(pch.value));
        case _ => f := f.(pos := 0);
      }
      f := f.(pos := f.pos + 1);
      pch, rest := Strtok(rest, Colon);
    }
  }

  method ConfigFromString(s: string) returns (c: Option<Config>)
    ensures c == FromString(s)
  {
    var tok1, rest1 := Strtok(s, Slash);
    var tok2, rest2 := None, "";
    if tok1.Some? { tok2, rest2 := Strtok(rest1, Slash); }
    var f := Fields(0, "", -1, -1, -1);
    if tok1.Some? { f := ParseFields(f, tok1.value); }
    c := None;
    if f.pos >= 2 { c := Some(Config(Some(f.host), Narrow(f.port), -1, DEFAULT_DELAY, None, 0)); }
    if f.pos >= 3 { c := Some(c.value.(mirrorPort := Narrow(f.mirrorPort))); }
    if f.pos == 4 { c := Some(c.value.(delay := Narrow(f.delay))); }
    if tok2.Some? {
      f := ParseFields(f.(pos := 0), tok2.value);
      if f.pos >= 2 && c.Some? { c := Some(c.value.(host2 := Some(f.host), port2 := Narrow(f.port))); }
    }
  }

  // ---- One configuration there and back -------------------------------------------------------------

  predicate PlainHost(h: string) { h != [] && Free(h, Colon) && Free(h, Slash) }

  /** The hosts are non-empty and free of ':' and '/'. */
  predicate Plain(c: Config) {
    c.host.Some? && PlainHost(c.host.value) && (c.host2.Some? ==> PlainHost(c.host2.value))
  }

  /** And free of whitespace, which separates the configurations of a list. */
  predicate Clean(c: Config) {
    Plain(c) && Free(c.host.value, IsSpace) && (c.host2.Some? ==> Free(c.host2.value, IsSpace))
  }

  /** What survives: the delay only with a mirror port, the second port only with a second host. */
  function Normal(c: Config): Config {
    c.(delay := if c.mirrorPort != -1 then c.delay else DEFAULT_DELAY, port2 := if c.host2.Some? then c.port2 else 0)
  }

  lemma NumberFree(n: int, sep: char -> bool)
    requires !sep('-') && forall c | IsDigit(c) :: !sep(c)
    ensures IntToString(n) != [] && Free(IntToString(n), sep)
  {
  }

  lemma FreeConcat(a: string, b: string, sep: char -> bool)
    requires Free(a, sep) && Free(b, sep)
    ensures Free(a + b, sep)
  {
  }

  lemma EndpointFree(h: string, n: int, sep: char -> bool)
    requires Free(h, sep) && !sep(':') && !sep('-') && forall c | IsDigit(c) :: !sep(c)
    ensures Free(Endpoint(h, n), sep)
  {
    hide IntToString;
    NumberFree(n, sep);
    FreeConcat(h + ":", IntToString(n), sep);
  }

  lemma EndpointTokens(h: string, n: int)
    requires PlainHost(h)
    ensures Split(Endpoint(h, n), Colon) == [h, IntToString(n)] && Endpoint(h, n) != []
  {
    hide IntToString, Split;
    NumberFree(n, Colon);
    assert Endpoint(h, n) == h + [':'] + IntToString(n);
    SplitPair(h, ':', IntToString(n), Colon);
    SplitWhole(IntToString(n), Colon);
  }

  lemma FirstPartFree(c: Config, sep: char -> bool)
    requires c.host.Some? && Free(c.host.value, sep) && !sep(':') && !sep('-') && forall d | IsDigit(d) :: !sep(d)
    ensures Free(FirstPart(c), sep)
  {
    hide IntToString, Endpoint;
    EndpointFree(c.host.value, c.port, sep);
    var m, d := IntToString(c.mirrorPort), IntToString(c.delay);
    NumberFree(c.mirrorPort, sep);
    NumberFree(c.delay, sep);
    FreeConcat(":" + m, ":" + d, sep);
    assert ":" + m + ":" + d == (":" + m) + (":" + d);
  }

  lemma FourTokens(h: string, n: int, m: int, d: int)
    requires PlainHost(h)
    ensures var s := Endpoint(h, n) + (":" + IntToString(m) + ":" + IntToString(d));
            Split(s, Colon) == [h, IntToString(n), IntToString(m), IntToString(d)]
  {
    hide IntToString, Split;
    var a, b, e := IntToString(n), IntToString(m), IntToString(d);
    NumberFree(n, Colon);
    NumberFree(m, Colon);
    NumberFree(d, Colon);
    SplitPair(h, ':', a + [':'] + (b + [':'] + e), Colon);
    SplitPair(a, ':', b + [':'] + e, Colon);
    SplitPair(b, ':', e, Colon);
    SplitWhole(e, Colon);
    assert Endpoint(h, n) + (":" + b + ":" + e) == h + [':'] + (a + [':'] + (b + [':'] + e));
  }

  lemma ReadTwo(f: Fields, a: string, b: string)
    requires f.pos == 0
    ensures ReadFields(f, [a, b]) == f.(pos := 2, host := a, port := Atoi(b))
  {
    var f1 := Field(f, a);
    assert [a, b][1..] == [b] && [b][1..] == [];
    assert ReadFields(f1, [b]) == Field(f1, b);
  }

  lemma ReadFour(f: Fields, a: string, b: string, m: string, d: string)
    requires f.pos == 0
    ensures ReadFields(f, [a, b, m, d]) == Fields(4, a, Atoi(b), Atoi(m), Atoi(d))
  {
    var f1 := Field(f, a);
    var f2 := Field(f1, b);
    var f3 := Field(f2, m);
    assert [a, b, m, d][1..] == [b, m, d] && [b, m, d][1..] == [m, d] && [m, d][1..] == [d] && [d][1..] == [];
    assert ReadFields(f3, [d]) == Field(f3, d);
    assert ReadFields(f2, [m, d]) == Field(f3, d);
    assert ReadFields(f1, [b, m, d]) == Field(f3, d);
  }

  lemma FirstPartReads(c: Config)
    requires Plain(c)
    ensures var s := FirstPart(c);
            && s != [] && Free(s, Slash)
            && ReadFields(Fields(0, "", -1, -1, -1), Split(s, Colon))
               == (if c.mirrorPort != -1 then Fields(4, c.host.value, c.port, c.mirrorPort, c.delay)
                   else Fields(2, c.host.value, c.port, -1, -1))
  {
    hide IntToString, Split, ReadFields, Atoi;
    var h := c.host.value;
    var f0 := Fields(0, "", -1, -1, -1);
    FirstPartFree(c, Slash);
    AtoiRoundTrip(c.port);
    if c.mirrorPort != -1 {
      FourTokens(h, c.port, c.mirrorPort, c.delay);
      AtoiRoundTrip(c.mirrorPort);
      AtoiRoundTrip(c.delay);
      ReadFour(f0, h, IntToString(c.port), IntToString(c.mirrorPort), IntToString(c.delay));
    } else {
      EndpointTokens(h, c.port);
      assert FirstPart(c) == Endpoint(h, c.port);
      ReadTwo(f0, h, IntToString(c.port));
    }
  }

  /** Parsing what was printed gives the configuration back, for any plain hosts and any 32-bit numbers. */
  lemma ConfigRoundTrip(c: Config)
    requires Plain(c)
    ensures FromString(ToString(c).value) == Some(Normal(c))
  {
    hide Split, ReadFields, IntToString, Endpoint, Atoi;
    var first := FirstPart(c);
    FirstPartReads(c);
    SplitWhole(first, Slash);
    if c.host2.Some? {
      var second := Endpoint(c.host2.value, c.port2);
      EndpointTokens(c.host2.value, c.port2);
      EndpointFree(c.host2.value, c.port2, Slash);
      var s := first + "/" + second;
      assert ToString(c) == Some(s) && s == first + ['/'] + second;
      SplitPair(first, '/', second, Slash);
      SplitWhole(second, Slash);
      assert Split(s, Slash) == [first, second];
      AtoiRoundTrip(c.port2);
      var f1 := ReadFields(Fields(0, "", -1, -1, -1), Split(first, Colon));
      ReadTwo(f1.(pos := 0), c.host2.value, IntToString(c.port2));
    } else {
      assert ToString(c) == Some(first);
    }
  }

  /** Tokens are non-empty, free of separators, and made of characters of the text. */
  lemma {:induction false} SplitFree(s: string, sep: char -> bool, other: char -> bool)
    ensures forall t <- Split(s, sep) :: t != [] && Free(t, sep) && (Free(s, other) ==> Free(t, other))
    decreases |s|
  {
    var t := DropSeps(s, sep);
    if t != [] {
      var a := TakeToken(t, sep);
      TakeTokenFree(t, sep);
      SplitFree(t[|a|..], sep, other);
      DropSepsSuffix(s, sep);
      assert Free(s, other) ==> Free(t, other);
      assert forall c <- t[|a|..] :: c in t;
      assert forall c <- a :: c in t;
    }
  }

  lemma {:induction false} DropSepsSuffix(s: string, sep: char -> bool)
    ensures forall c <- DropSeps(s, sep) :: c in s
  {
    if s != [] && sep(s[0]) {
      DropSepsSuffix(s[1..], sep);
    }
  }

  /** Only the first token of a part is ever taken for its host. */
  lemma {:induction false} ReadFieldsHost(f: Fields, toks: seq<string>)
    ensures f.pos > 0 ==> ReadFields(f, toks).host == f.host
    ensures f.pos == 0 && toks != [] ==> ReadFields(f, toks).host == toks[0]
    ensures f.pos == 0 && toks == [] ==> ReadFields(f, toks).pos == 0
    decreases |toks|
  {
    if toks != [] {
      ReadFieldsHost(Field(f, toks[0]), toks[1..]);
    }
  }

  lemma PartHost(f: Fields, part: string)
    requires f.pos == 0 && Free(part, Slash) && ReadFields(f, Split(part, Colon)).pos > 0
    ensures PlainHost(ReadFields(f, Split(part, Colon)).host)
  {
    hide Split, ReadFields;
    SplitFree(part, Colon, Slash);
    ReadFieldsHost(f, Split(part, Colon));
    assert Split(part, Colon)[0] in Split(part, Colon);
  }

  /** Whatever is parsed, from any text, has plain hosts. */
  lemma ParsedIsPlain(s: string)
    ensures FromString(s).Some? ==> Plain(FromString(s).value)
  {
    hide Split, ReadFields, PlainHost;
    SplitFree(s, Slash, Slash);
    var toks := Split(s, Slash);
    var f0 := Fields(0, "", -1, -1, -1);
    if FromString(s).Some? {
      if toks == [] { ReadFieldsHost(f0, []); }
      assert toks[0] in toks;
      PartHost(f0, toks[0]);
      if |toks| >= 2 {
        assert toks[1] in toks;
        var f1 := ReadFields(f0, Split(toks[0], Colon)).(pos := 0);
        if ReadFields(f1, Split(toks[1], Colon)).pos >= 2 { PartHost(f1, toks[1]); }
      }
    }
  }

  /** So a configuration survives printing and parsing if and only if its hosts are plain. */
  lemma RoundTripIffPlain(c: Config)
    requires c.host.Some?
    ensures FromString(ToString(c).value) == Some(Normal(c)) <==> Plain(c)
  {
    hide FromString, ToString;
    if Plain(c) { ConfigRoundTrip(c); }
    assert ToString(c).Some? by { PrintsWithHost(c); }
    ParsedIsPlain(ToString(c).value);
  }

  lemma PrintsWithHost(c: Config)
    ensures ToString(c).Some? <==> c.host.Some?
  {
  }

  /** The printed text, in each of the four cases. */
  lemma PrintedText(c: Config)
    requires c.host.Some?
    ensures var h, p, m, d := c.host.value, IntToString(c.port), IntToString(c.mirrorPort), IntToString(c.delay);
            && (c.mirrorPort == -1 && c.host2.None? ==> ToString(c) == Some(h + ":" + p))
            && (c.mirrorPort != -1 && c.host2.None? ==> ToString(c) == Some(h + ":" + p + ":" + m + ":" + d))
            && (c.mirrorPort == -1 && c.host2.Some? ==>
                  ToString(c) == Some(h + ":" + p + "/" + c.host2.value + ":" + IntToString(c.port2)))
            && (c.mirrorPort != -1 && c.host2.Some? ==>
                  ToString(c)
                  == Some(h + ":" + p + ":" + m + ":" + d + "/" + c.host2.value + ":" + IntToString(c.port2)))
  {
    hide IntToString;
    var h, p, m, d := c.host.value, IntToString(c.port), IntToString(c.mirrorPort), IntToString(c.delay);
    assert h + ":" + p + "" == h + ":" + p;
    assert h + ":" + p + (":" + m + ":" + d) == h + ":" + p + ":" + m + ":" + d;
    if c.host2.Some? {
      var q := IntToString(c.port2);
      assert h + ":" + p + "/" + (c.host2.value + ":" + q) == h + ":" + p + "/" + c.host2.value + ":" + q;
      assert h + ":" + p + ":" + m + ":" + d + "/" + (c.host2.value + ":" + q)
             == h + ":" + p + ":" + m + ":" + d + "/" + c.host2.value + ":" + q;
    }
  }

  // ---- Any text at all --------------------------------------------------------------------------------

  /** The last of `n` tokens whose position is `j` modulo 4: later tokens overwrite earlier ones. */
  function LastOf(n: nat, j: nat): (i: nat)
    requires 0 < j < 4 && j < n
    ensures j <= i < n && i % 4 == j && n - i <= 4
  {
    j + 4 * ((n - 1 - j) / 4)
  }

  lemma {:induction false} ReadFieldsSnoc(f: Fields, toks: seq<string>, t: string)
    ensures ReadFields(f, toks + [t]) == Field(ReadFields(f, toks), t)
    decreases |toks|
  {
    hide Field;
    if toks == [] {
      assert toks + [t] == [t] && [t][1..] == [];
      assert ReadFields(Field(f, t), []) == Field(f, t);
    } else {
      assert (toks + [t])[1..] == toks[1..] + [t];
      ReadFieldsSnoc(Field(f, toks[0]), toks[1..], t);
    }
  }

  /** One more token is the last of its position, and leaves the others. */
  lemma LastOfStep(n: nat, j: nat)
    requires 0 < j < 4 && j <= n
    ensures LastOf(n + 1, j) == if n % 4 == j then n else LastOf(n, j)
  {
  }

  lemma PositionStep(n: nat)
    requires n > 0
    ensures var pos := (n - 1) % 4 + 1;
            (pos == 4 <==> n % 4 == 0) && (pos < 4 ==> pos == n % 4) && n % 4 == (if pos < 4 then pos else 0)
  {
  }

  /** Host first, then port, mirror port and delay in turn; every fourth token after the host's is swallowed. */
  lemma {:induction false} FieldsByPosition(f: Fields, toks: seq<string>)
    requires f.pos == 0
    ensures var r, n := ReadFields(f, toks), |toks|;
            && r.pos == (if n == 0 then 0 else (n - 1) % 4 + 1)
            && (n > 0 ==> r.host == toks[0])
            && r.port == (if n > 1 then Atoi(toks[LastOf(n, 1)]) else f.port)
            && r.mirrorPort == (if n > 2 then Atoi(toks[LastOf(n, 2)]) else f.mirrorPort)
            && r.delay == (if n > 3 then Atoi(toks[LastOf(n, 3)]) else f.delay)
    decreases |toks|
  {
    hide Atoi, LastOf, ReadFields;
    var n := |toks| - 1;
    if n < 0 {
      NoFields(f);
    } else {
      FieldsByPosition(f, toks[..n]);
      ReadFieldsSnoc(f, toks[..n], toks[n]);
      assert toks == toks[..n] + [toks[n]];
      if n > 0 {
        PositionStep(n);
        LastOfStep(n, 1);
        if n > 1 { LastOfStep(n, 2); }
        if n > 2 { LastOfStep(n, 3); }
      }
    }
  }

  lemma NoFields(f: Fields)
    ensures ReadFields(f, []) == f
  {
  }

  /**
   * What any text parses to, by the tokens between its slashes and colons. There is no configuration exactly when
   * the first part has no token, or one more than a multiple of four; without a third token there is no mirror
   * port, and without a fourth the delay is 1000; a second part that would itself be refused is ignored.
   */
  lemma ParsedByTokens(s: string)
    ensures var parts := Split(s, Slash);
            var a := if |parts| > 0 then Split(parts[0], Colon) else [];
            var b := if |parts| > 1 then Split(parts[1], Colon) else [];
            && (FromString(s).None? <==> |a| == 0 || |a| % 4 == 1)
            && (FromString(s).Some? ==>
                  var c := FromString(s).value;
                  && c.host == Some(a[0]) && c.port == Narrow(Atoi(a[LastOf(|a|, 1)]))
                  && c.mirrorPort == (if |a| % 4 == 3 || |a| % 4 == 0 then Narrow(Atoi(a[LastOf(|a|, 2)])) else -1)
                  && c.delay == (if |a| % 4 == 0 then Narrow(Atoi(a[LastOf(|a|, 3)])) else 1000)
                  && (if |b| == 0 || |b| % 4 == 1 then c.host2 == None && c.port2 == 0
                      else c.host2 == Some(b[0]) && c.port2 == Narrow(Atoi(b[LastOf(|b|, 1)]))))
  {
    hide Split, ReadFields, Atoi, Narrow, LastOf;
    var parts := Split(s, Slash);
    var a := if |parts| > 0 then Split(parts[0], Colon) else [];
    var f0 := Fields(0, "", -1, -1, -1);
    FieldsByPosition(f0, a);
    var f1 := ReadFields(f0, a);
    if |a| > 0 { PositionStep(|a|); }
    if |parts| > 1 {
      var b := Split(parts[1], Colon);
      FieldsByPosition(f1.(pos := 0), b);
      if |b| > 0 { PositionStep(|b|); }
    }
  }

  /** A mirror port without a delay, before a second host. */
  lemma MirrorWithoutDelay(h: string, p: int32, m: int32, h2: string, p2: int32)
    requires PlainHost(h) && PlainHost(h2)
    ensures FromString(h + ":" + IntToString(p) + ":" + IntToString(m) + "/" + h2 + ":" + IntToString(p2))
            == Some(Config(Some(h), p, m, 1000, Some(h2), p2))
  {
    hide Split, IntToString, Atoi, FromString, PlainHost, Endpoint;
    var first, second := h + ":" + IntToString(p) + ":" + IntToString(m), Endpoint(h2, p2);
    var s := first + ['/'] + second;
    assert s == h + ":" + IntToString(p) + ":" + IntToString(m) + "/" + h2 + ":" + IntToString(p2) by {
      assert second == h2 + ":" + IntToString(p2) by { EndpointText(h2, p2); }
      SlashText(first, h2, IntToString(p2), second);
    }
    TwoParts(h, p, m, h2, p2);
    ThreeTokens(h, p, m);
    EndpointTokens(h2, p2);
    ParsedParts(s, first, second, h, IntToString(p), IntToString(m), h2, IntToString(p2));
    AtoiRoundTrip(p);
    AtoiRoundTrip(m);
    AtoiRoundTrip(p2);
  }

  lemma EndpointText(h: string, n: int)
    ensures Endpoint(h, n) == h + ":" + IntToString(n)
  {
  }

  lemma SlashText(first: string, h2: string, q: string, second: string)
    requires second == h2 + ":" + q
    ensures first + ['/'] + second == first + "/" + h2 + ":" + q
  {
  }

  lemma TwoParts(h: string, p: int, m: int, h2: string, p2: int)
    requires PlainHost(h) && PlainHost(h2)
    ensures var first, second := h + ":" + IntToString(p) + ":" + IntToString(m), Endpoint(h2, p2);
            Split(first + ['/'] + second, Slash) == [first, second]
  {
    hide Split, IntToString;
    var first, second := h + ":" + IntToString(p) + ":" + IntToString(m), Endpoint(h2, p2);
    EndpointFree(h, p, Slash);
    NumberFree(m, Slash);
    FreeConcat(h + ":" + IntToString(p) + ":", IntToString(m), Slash);
    EndpointFree(h2, p2, Slash);
    SplitPair(first, '/', second, Slash);
    SplitWhole(second, Slash);
  }

  /** Three tokens, a slash and two tokens. */
  lemma ParsedParts(s: string, first: string, second: string, h: string, p: string, m: string, h2: string, p2: string)
    requires Split(s, Slash) == [first, second]
    requires Split(first, Colon) == [h, p, m] && Split(second, Colon) == [h2, p2]
    ensures FromString(s)
            == Some(Config(Some(h), Narrow(Atoi(p)), Narrow(Atoi(m)), 1000, Some(h2), Narrow(Atoi(p2))))
  {
    hide Split, ReadFields, Atoi, Narrow;
    ReadThree(Fields(0, "", -1, -1, -1), h, p, m);
    ReadTwo(Fields(0, h, Atoi(p), Atoi(m), -1), h2, p2);
  }

  lemma ReadThree(f: Fields, a: string, b: string, m: string)
    requires f.pos == 0
    ensures ReadFields(f, [a, b, m]) == f.(pos := 3, host := a, port := Atoi(b), mirrorPort := Atoi(m))
  {
    hide Atoi;
    var f1 := Field(f, a);
    var f2 := Field(f1, b);
    assert [a, b, m][1..] == [b, m] && [b, m][1..] == [m] && [m][1..] == [];
    assert ReadFields(f2, [m]) == Field(f2, m);
    assert ReadFields(f1, [b, m]) == Field(f2, m);
  }

  lemma ThreeTokens(h: string, p: int, m: int)
    requires PlainHost(h)
    ensures Split(h + ":" + IntToString(p) + ":" + IntToString(m), Colon) == [h, IntToString(p), IntToString(m)]
  {
    hide Split, IntToString;
    var a, b := IntToString(p), IntToString(m);
    NumberFree(p, Colon);
    NumberFree(m, Colon);
    SplitPair(h, ':', a + [':'] + b, Colon);
    SplitPair(a, ':', b, Colon);
    SplitWhole(b, Colon);
    assert h + ":" + a + ":" + b == h + [':'] + (a + [':'] + b);
  }

  lemma TextIsOneWord(c: Config)
    requires Clean(c)
    ensures ToString(c).Some? && Split(ToString(c).value, IsSpace) == [ToString(c).value]
  {
    hide Split, IntToString, Endpoint;
    FirstPartFree(c, IsSpace);
    FirstPartReads(c);
    if c.host2.Some? {
      EndpointFree(c.host2.value, c.port2, IsSpace);
      FreeConcat(FirstPart(c) + "/", Endpoint(c.host2.value, c.port2), IsSpace);
    }
    SplitWhole(ToString(c).value, IsSpace);
  }

  // ---- A list there and back ------------------------------------------------------------------------

  /** The stored string; None removes the entry from the configuration file. */
  function Saved(cs: seq<Config>): Option<string> {
    if cs == [] then None
    else
      var n := |cs| - 1;
      var before := Saved(cs[..n]);
      var str := ToString(cs[n]);
      if str.None? then before
      else if before.None? then str
      else Some(before.value + " " + str.value)
  }

  function Parsed(words: seq<string>): seq<Config> {
    if words == [] then []
    else
      var n := |words| - 1;
      Parsed(words[..n]) + match FromString(words[n]) case None => [] case Some(c) => [c]
  }

  function Loaded(stored: Option<string>): seq<Config> {
    if stored.None? then [] else Parsed(Split(stored.value, IsSpace))
  }

  /** The configurations that have a host, normalised, in order. */
  function Kept(cs: seq<Config>): seq<Config> {
    if cs == [] then []
    else
      var n := |cs| - 1;
      Kept(cs[..n]) + if cs[n].host.Some? then [Normal(cs[n])] else []
  }

  method SaveConfig(cs: seq<Config>) returns (stored: Option<string>)
    ensures stored == Saved(cs)
  {
    stored := None;
    for i := 0 to |cs|
      invariant stored == Saved(cs[..i])
    {
      assert cs[..i + 1][..i] == cs[..i];
      var str := ToString(cs[i]);
      if str.Some? {
        stored := if stored.Some? then Some(stored.value + " " + str.value) else str;
      }
    }
    assert cs[..|cs|] == cs;
  }

  /** The scan loop: one "%s" after another until nothing but whitespace is left. */
  method LoadConfig(stored: Option<string>) returns (cs: seq<Config>)
    ensures cs == Loaded(stored)
  {
    hide FromString, Split;
    cs := [];
    if stored.None? { return; }
    ghost var words := Split(stored.value, IsSpace);
    ghost var done: seq<string> := [];
    var tok, it := Strtok(stored.value, IsSpace);
    while tok.Some?
      invariant words == if tok.Some? then done + [tok.value] + Split(it, IsSpace) else done
      invariant cs == Parsed(done)
      decreases tok.Some?, |it|
    {
      var c := ConfigFromString(tok.value);
      if c.Some? { cs := cs + [c.value]; }
      assert (done + [tok.value])[..|done|] == done;
      done := done + [tok.value];
      tok, it := Strtok(it, IsSpace);
    }
  }

  /**
   * Loading a saved list gives the same configurations in the same order; those without a host are
   * dropped, whatever else they hold.
   */
  lemma {:induction false} ListRoundTrip(cs: seq<Config>)
    requires forall c <- cs | c.host.Some? :: Clean(c)
    ensures Loaded(Saved(cs)) == Kept(cs)
  {
    hide ToString, FromString, Split;
    if cs != [] {
      var n := |cs| - 1;
      ListRoundTrip(cs[..n]);
      var before, str := Saved(cs[..n]), ToString(cs[n]);
      PrintsWithHost(cs[n]);
      if cs[n].host.Some? {
        assert Clean(cs[n]);
        ConfigRoundTrip(cs[n]);
        TextIsOneWord(cs[n]);
        ParsedOne(str.value);
        if before.Some? {
          SplitAppend(before.value, ' ', str.value, IsSpace);
          assert before.value + " " + str.value == before.value + [' '] + str.value;
          ParsedSnoc(Split(before.value, IsSpace), str.value);
        }
      }
    }
  }

  /** The hosts read from a word are made of its characters. */
  lemma PartHostFree(f: Fields, part: string, other: char -> bool)
    requires f.pos == 0 && Free(part, other) && ReadFields(f, Split(part, Colon)).pos > 0
    ensures Free(ReadFields(f, Split(part, Colon)).host, other)
  {
    hide Split, ReadFields;
    SplitFree(part, Colon, other);
    ReadFieldsHost(f, Split(part, Colon));
    assert Split(part, Colon)[0] in Split(part, Colon);
  }

  lemma ParsedWordIsClean(w: string)
    requires Free(w, IsSpace)
    ensures FromString(w).Some? ==> Clean(FromString(w).value)
  {
    hide Split, ReadFields, PlainHost, Free;
    ParsedIsPlain(w);
    SplitFree(w, Slash, IsSpace);
    var toks := Split(w, Slash);
    var f0 := Fields(0, "", -1, -1, -1);
    if FromString(w).Some? {
      if toks == [] { ReadFieldsHost(f0, []); }
      assert toks[0] in toks;
      PartHostFree(f0, toks[0], IsSpace);
      if |toks| >= 2 {
        assert toks[1] in toks;
        var f1 := ReadFields(f0, Split(toks[0], Colon)).(pos := 0);
        if ReadFields(f1, Split(toks[1], Colon)).pos >= 2 { PartHostFree(f1, toks[1], IsSpace); }
      }
    }
  }

  /** Whatever is loaded, from any stored text, is clean. */
  lemma LoadedIsClean(stored: Option<string>)
    ensures forall c <- Loaded(stored) :: Clean(c)
  {
    hide FromString, Split, Clean;
    if stored.Some? {
      SplitFree(stored.value, IsSpace, IsSpace);
      ParsedWordsAreClean(Split(stored.value, IsSpace));
    }
  }

  lemma {:induction false} ParsedWordsAreClean(words: seq<string>)
    requires forall w <- words :: Free(w, IsSpace)
    ensures forall c <- Parsed(words) :: Clean(c)
  {
    hide FromString, Clean, Free;
    if words != [] {
      var n := |words| - 1;
      ParsedWordsAreClean(words[..n]);
      assert words[n] in words;
      ParsedWordIsClean(words[n]);
    }
  }

  lemma {:induction false} KeptMember(cs: seq<Config>, c: Config)
    requires c in cs && c.host.Some?
    ensures Normal(c) in Kept(cs)
  {
    var n := |cs| - 1;
    if c != cs[n] {
      assert cs == cs[..n] + [cs[n]];
      KeptMember(cs[..n], c);
    }
  }

  /** So a list survives saving and loading if and only if the hosts in it are clean. */
  lemma ListRoundTripIff(cs: seq<Config>)
    ensures Loaded(Saved(cs)) == Kept(cs) <==> forall c <- cs | c.host.Some? :: Clean(c)
  {
    hide Loaded, Saved, Kept, PlainHost;
    if forall c <- cs | c.host.Some? :: Clean(c) {
      ListRoundTrip(cs);
    }
    if Loaded(Saved(cs)) == Kept(cs) {
      LoadedIsClean(Saved(cs));
      forall c <- cs | c.host.Some? ensures Clean(c) {
        KeptMember(cs, c);
        assert Clean(Normal(c));
      }
    }
  }

  lemma ParsedSnoc(words: seq<string>, w: string)
    ensures Parsed(words + [w]) == Parsed(words) + match FromString(w) case None => [] case Some(c) => [c]
  {
    assert (words + [w])[..|words|] == words;
  }

  lemma ParsedOne(w: string)
    ensures Parsed([w]) == match FromString(w) case None => [] case Some(c) => [c]
  {
    ParsedSnoc([], w);
    assert [] + [w] == [w];
  }
}
