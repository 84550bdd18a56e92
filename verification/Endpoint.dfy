/** Socket endpoint addresses `<scheme>://<ipv4>[:<port>][?<query>]`: the grammar that is accepted,
    the parser, the printer, and their round trips. */
module Endpoint {

  datatype Protocol = Tcp | Udp | Roce | Invalid

  datatype Address = Address(protocol: Protocol, host: string, port: nat)

  function ProtocolOf(scheme: string): Protocol {
    if scheme == "tcp" then Tcp
    else if scheme == "udp" then Udp
    else if scheme == "rdma" || scheme == "roce" then Roce
    else Invalid
  }

  function SchemeOf(p: Protocol): string {
    match p
    case Tcp => "tcp"
    case Udp => "udp"
    case Roce => "roce"
    case Invalid => ""
  }

  // ---------- Text ----------

  function Find(s: string, c: char, from: nat): (k: nat)
    requires from <= |s|
    ensures from <= k <= |s| && (k < |s| ==> s[k] == c)
    ensures forall i | from <= i < k :: s[i] != c
    decreases |s| - from
  {
    if from == |s| || s[from] == c then from else Find(s, c, from + 1)
  }

  // ---------- Numbers ----------

  predicate IsDigit(c: char) {
    '0' <= c <= '9'
  }

  predicate AllDigits(s: string) {
    forall i | 0 <= i < |s| :: IsDigit(s[i])
  }

  function DigitValue(s: string): nat
    requires AllDigits(s)
  {
    if s == "" then 0 else DigitValue(s[..|s| - 1]) * 10 + (s[|s| - 1] as int - '0' as int)
  }

  /** std::to_string of an unsigned number. */
  function Decimal(n: nat): (s: string)
    ensures s != "" && AllDigits(s)
  {
    var last := [('0' as int + n % 10) as char];
    if n < 10 then last else Decimal(n / 10) + last
  }

  lemma {:induction false} DecimalReads(n: nat)
    ensures DigitValue(Decimal(n)) == n
  {
    var last := [('0' as int + n % 10) as char];
    if n < 10 {
      assert Decimal(n)[..0] == "";
    } else {
      DecimalReads(n / 10);
      assert Decimal(n)[..|Decimal(n)| - 1] == Decimal(n / 10);
    }
  }

  // ---------- Hosts ----------

  /** What a C string function sees of a std::string. */
  function CString(s: string): (r: string)
    ensures r <= s
  {
    if s == "" || s[0] == '\0' then "" else [s[0]] + CString(s[1..])
  }

  /** One decimal octet: one to three digits, at most 255, no leading zero. */
  predicate IsOctet(s: string) {
    1 <= |s| <= 3 && AllDigits(s) && DigitValue(s) <= 255 && (s[0] == '0' ==> |s| == 1)
  }

  /** Dotted-quad text, as inet_pton accepts it. */
  predicate IsIpv4(s: string) {
    var i := Find(s, '.', 0);
    i < |s| &&
    var j := Find(s, '.', i + 1);
    j < |s| &&
    var k := Find(s, '.', j + 1);
    k < |s| && IsOctet(s[..i]) && IsOctet(s[i + 1..j]) && IsOctet(s[j + 1..k]) && IsOctet(s[k + 1..])
  }

  predicate HostOk(host: string) {
    IsIpv4(CString(host))
  }

  /** Decimal text without leading zeros is the text of its value. */
  lemma {:induction false} DecimalUnique(s: string)
    requires s != "" && AllDigits(s) && (s[0] == '0' ==> |s| == 1)
    ensures Decimal(DigitValue(s)) == s
    ensures s[0] != '0' ==> DigitValue(s) > 0
  {
    var n := |s| - 1;
    var init, d := s[..n], s[n] as int - '0' as int;
    if n == 0 {
      assert init == "" && s == [s[0]];
    } else {
      DecimalUnique(init);
      DigitSplit(DigitValue(init), d);
      assert s == init + [s[n]];
    }
  }

  lemma DigitSplit(q: nat, d: nat)
    requires d < 10
    ensures (q * 10 + d) / 10 == q && (q * 10 + d) % 10 == d
  {
  }

  lemma {:induction false} DecimalShape(n: nat)
    ensures Decimal(n)[0] == '0' ==> |Decimal(n)| == 1
    ensures n > 0 ==> Decimal(n)[0] != '0'
    ensures n < 10 ==> |Decimal(n)| == 1
    ensures n < 100 ==> |Decimal(n)| <= 2
    ensures n < 1000 ==> |Decimal(n)| <= 3
  {
    if n >= 10 {
      DecimalShape(n / 10);
    }
  }

  /** An octet is the decimal text of a number up to 255. */
  lemma OctetExact(s: string)
    ensures IsOctet(s) <==> exists v: nat :: v <= 255 && s == Decimal(v)
  {
    if IsOctet(s) {
      DecimalUnique(s);
    }
    if v: nat :| v <= 255 && s == Decimal(v) {
      DecimalReads(v);
      DecimalShape(v);
    }
  }

  /** Four numbers with dots between them. */
  function Quad(a: nat, b: nat, c: nat, d: nat): string {
    Decimal(a) + "." + (Decimal(b) + "." + (Decimal(c) + "." + Decimal(d)))
  }

  /** The first dot of text that begins without one. */
  lemma DotFound(pre: string, a: string, rest: string)
    requires AllDigits(a)
    ensures Find(pre + (a + "." + rest), '.', |pre|) == |pre| + |a|
  {
    hide Find;
    var s := pre + (a + "." + rest);
    assert s[|pre| + |a|] == '.';
    assert forall i | |pre| <= i < |pre| + |a| :: s[i] == a[i - |pre|];
  }

  /** What is accepted as a host is exactly four numbers up to 255, written without leading zeros. */
  lemma Ipv4Exact(s: string)
    ensures IsIpv4(s) <==> exists a: nat, b: nat, c: nat, d: nat :: a <= 255 && b <= 255 && c <= 255 && d <= 255 && s == Quad(a, b, c, d)
  {
    hide IsOctet, Decimal, Find;
    if IsIpv4(s) {
      QuadOf(s);
    }
    if a: nat, b: nat, c: nat, d: nat :| a <= 255 && b <= 255 && c <= 255 && d <= 255 && s == Quad(a, b, c, d) {
      QuadIs(a, b, c, d);
    }
  }

  lemma QuadOf(s: string)
    requires IsIpv4(s)
    ensures exists a: nat, b: nat, c: nat, d: nat :: a <= 255 && b <= 255 && c <= 255 && d <= 255 && s == Quad(a, b, c, d)
  {
    hide IsOctet, Decimal, Find;
    var i := Find(s, '.', 0);
    var j := Find(s, '.', i + 1);
    var k := Find(s, '.', j + 1);
    OctetExact(s[..i]);
    OctetExact(s[i + 1..j]);
    OctetExact(s[j + 1..k]);
    OctetExact(s[k + 1..]);
    var a: nat :| a <= 255 && s[..i] == Decimal(a);
    var b: nat :| b <= 255 && s[i + 1..j] == Decimal(b);
    var c: nat :| c <= 255 && s[j + 1..k] == Decimal(c);
    var d: nat :| d <= 255 && s[k + 1..] == Decimal(d);
    CutAtDots(s, i, j, k);
    assert s == Quad(a, b, c, d);
  }

  lemma CutAtDots(s: string, i: nat, j: nat, k: nat)
    requires i < j < k < |s| && s[i] == s[j] == s[k] == '.'
    ensures s == s[..i] + "." + (s[i + 1..j] + "." + (s[j + 1..k] + "." + s[k + 1..]))
  {
  }

  lemma DotsFound(x: string, y: string, z: string, w: string)
    requires AllDigits(x) && AllDigits(y) && AllDigits(z) && AllDigits(w)
    ensures var s := x + "." + (y + "." + (z + "." + w));
            var i, j := |x|, |x| + 1 + |y|;
            && Find(s, '.', 0) == i && Find(s, '.', i + 1) == j && Find(s, '.', j + 1) == j + 1 + |z|
  {
    hide Find, AllDigits;
    var s, p, q := x + "." + (y + "." + (z + "." + w)), x + ".", x + "." + (y + ".");
    assert s == "" + (x + "." + (y + "." + (z + "." + w)));
    DotFound("", x, y + "." + (z + "." + w));
    assert s == p + (y + "." + (z + "." + w));
    DotFound(p, y, z + "." + w);
    assert s == q + (z + "." + w);
    DotFound(q, z, w);
  }

  lemma PartsFound(x: string, y: string, z: string, w: string)
    ensures var s := x + "." + (y + "." + (z + "." + w));
            var i, j := |x|, |x| + 1 + |y|;
            && |s| == j + 2 + |z| + |w| && s[..i] == x && s[i + 1..j] == y
            && s[j + 1..j + 1 + |z|] == z && s[j + 2 + |z|..] == w
  {
  }

  lemma QuadIs(a: nat, b: nat, c: nat, d: nat)
    requires a <= 255 && b <= 255 && c <= 255 && d <= 255
    ensures IsIpv4(Quad(a, b, c, d))
  {
    OctetIs(a);
    OctetIs(b);
    OctetIs(c);
    OctetIs(d);
    DottedIs(Decimal(a), Decimal(b), Decimal(c), Decimal(d));
  }

  lemma OctetIs(v: nat)
    requires v <= 255
    ensures IsOctet(Decimal(v))
  {
    OctetExact(Decimal(v));
  }

  lemma DottedIs(x: string, y: string, z: string, w: string)
    requires IsOctet(x) && IsOctet(y) && IsOctet(z) && IsOctet(w)
    ensures IsIpv4(x + "." + (y + "." + (z + "." + w)))
  {
    hide Find, DigitValue;
    DotsFound(x, y, z, w);
    PartsFound(x, y, z, w);
  }

  predicate HostChars(s: string) {
    forall i | 0 <= i < |s| :: IsDigit(s[i]) || s[i] == '.'
  }

  lemma Ipv4Chars(s: string)
    requires IsIpv4(s)
    ensures HostChars(s) && s != ""
  {
    hide Find, DigitValue, IsOctet;
    var i := Find(s, '.', 0);
    var j := Find(s, '.', i + 1);
    var k := Find(s, '.', j + 1);
    assert s[..i] == s[0..i] && s[k + 1..] == s[k + 1..|s|];
    OctetChars(s, 0, i);
    OctetChars(s, i + 1, j);
    OctetChars(s, j + 1, k);
    OctetChars(s, k + 1, |s|);
  }

  lemma OctetChars(s: string, lo: nat, hi: nat)
    requires lo <= hi <= |s| && IsOctet(s[lo..hi])
    ensures forall x | lo <= x < hi :: IsDigit(s[x])
  {
    forall x | lo <= x < hi ensures IsDigit(s[x]) {
      assert s[x] == s[lo..hi][x - lo];
    }
  }

  lemma {:induction false} CStringOfPlain(s: string)
    requires '\0' !in s
    ensures CString(s) == s
  {
    if s != "" {
      assert '\0' !in s[1..];
      CStringOfPlain(s[1..]);
    }
  }

  // ---------- Queries ----------

  const ENGINE := "engine=ibverbs"

  /** One or more `engine=ibverbs`, separated by `&`. */
  predicate Engines(q: string) {
    q == ENGINE || (|q| > 14 && q[..14] == ENGINE && q[14] == '&' && Engines(q[15..]))
  }

  predicate QueryOk(q: string, p: Protocol) {
    q == "" || (p.Roce? && Engines(q))
  }

  /** An item passes the key and value tests exactly when it is `engine=ibverbs`. */
  predicate ItemOk(item: string) {
    var eq := Find(item, '=', 0);
    eq < |item| && eq != 0 && eq + 1 < |item| && item[..eq] == "engine" && item[eq + 1..] == "ibverbs"
  }

  lemma ItemExact(item: string)
    ensures ItemOk(item) <==> item == ENGINE
  {
    var eq := Find(item, '=', 0);
    if ItemOk(item) {
      assert item == item[..eq] + [item[eq]] + item[eq + 1..];
      assert item == "engine" + "=" + "ibverbs";
    }
    if item == ENGINE {
      assert item[6] == '=';
      assert forall i | 0 <= i < 6 :: ENGINE[i] != '=';
      assert eq == 6;
      assert item[..6] == "engine" && item[7..] == "ibverbs";
    }
  }

  lemma EnginesSplit(q: string, sep: nat)
    requires sep <= |q| && (forall i | 0 <= i < sep :: q[i] != '&') && (sep < |q| ==> q[sep] == '&')
    ensures Engines(q) <==> q[..sep] == ENGINE && (sep < |q| ==> Engines(q[sep + 1..]))
  {
    assert forall i | 0 <= i < 14 :: ENGINE[i] != '&';
    if |q| >= 14 && q[..14] == ENGINE {
      assert forall i | 0 <= i < 14 :: q[i] == q[..14][i];
      assert sep >= 14;
    }
    if q[..sep] == ENGINE {
      assert sep == 14;
    }
  }

  /** parse_endpoint_query. */
  method ParseEndpointQuery(query: string, protocol: Protocol) returns (ok: bool)
    ensures ok <==> QueryOk(query, protocol)
  {
    hide Engines, ItemOk;
    if query == "" {
      return true;
    }
    if !protocol.Roce? {
      return false;
    }
    var start := 0;
    assert query[0..] == query;
    while start <= |query|
      invariant start <= |query| && (Engines(query) <==> Engines(query[start..]))
      decreases |query| - start
    {
      var sep := Find(query, '&', start);
      var item := query[start..sep];
      ghost var rest := query[start..];
      assert item == rest[..sep - start];
      EnginesSplit(rest, sep - start);
      ItemExact(item);
      if !ItemOk(item) {
        return false;
      }
      if sep == |query| {
        break;
      }
      assert rest[sep - start + 1..] == query[sep + 1..];
      start := sep + 1;
    }
    return true;
  }

  // ---------- The grammar ----------

  /** A port that may be 0: only for RoCE, and only where it may be missing. */
  predicate ZeroOk(a: Address, allow: bool) {
    allow && a.protocol.Roce?
  }

  /** Host and port text. */
  predicate Plain(a: Address, authority: string, allow: bool) {
    ':' !in authority && authority == a.host && a.port == 0 && ZeroOk(a, allow)
  }

  predicate WithPort(a: Address, authority: string, allow: bool, digits: string) {
    && authority == a.host + ":" + digits && a.host != "" && digits != "" && AllDigits(digits)
    && DigitValue(digits) == a.port <= 65535 && (a.port == 0 ==> ZeroOk(a, allow))
  }

  ghost predicate AuthorityOk(a: Address, authority: string, allow: bool) {
    && authority != "" && '/' !in authority && '?' !in authority && HostOk(a.host)
    && (Plain(a, authority, allow) || exists digits :: WithPort(a, authority, allow, digits))
  }

  function Tail(query: string, hasQuery: bool): string {
    if hasQuery then "?" + query else ""
  }

  predicate Spells(value: string, a: Address, scheme: string, authority: string, query: string, hasQuery: bool) {
    && value == scheme + "://" + authority + Tail(query, hasQuery)
    && ProtocolOf(scheme) == a.protocol && !a.protocol.Invalid?
    && (hasQuery ==> QueryOk(query, a.protocol))
  }

  /** The text denotes the address. */
  ghost predicate Denotes(value: string, allow: bool, a: Address) {
    exists scheme, authority, query, hasQuery ::
      Spells(value, a, scheme, authority, query, hasQuery) && AuthorityOk(a, authority, allow)
  }

  // ---------- Finding the parts ----------

  predicate SeparatorAt(s: string, k: nat) {
    k + 3 <= |s| && s[k] == ':' && s[k + 1] == '/' && s[k + 2] == '/'
  }

  /** value.find("://"), or the length when there is none. */
  function FindScheme(s: string, from: nat): (k: nat)
    requires from <= |s|
    ensures from <= k <= |s| && (k < |s| ==> SeparatorAt(s, k))
    ensures forall i | from <= i < k :: !SeparatorAt(s, i)
    decreases |s| - from
  {
    if from == |s| || SeparatorAt(s, from) then from else FindScheme(s, from + 1)
  }

  /** authority.rfind(':'), or -1. */
  function FindLast(s: string, c: char, n: nat): (k: int)
    requires n <= |s|
    ensures -1 <= k < n && (k >= 0 ==> s[k] == c)
    ensures forall i | k < i < n :: s[i] != c
  {
    if n == 0 then -1 else if s[n - 1] == c then n - 1 else FindLast(s, c, n - 1)
  }

  /** The first "://" of a spelled address ends its scheme. */
  lemma SchemeFound(scheme: string, rest: string)
    requires !ProtocolOf(scheme).Invalid?
    ensures var v := scheme + "://" + rest;
            FindScheme(v, 0) == |scheme| && v[..|scheme|] == scheme && v[|scheme| + 3..] == rest
  {
    var v := scheme + "://" + rest;
    hide FindScheme;
    assert forall i | 0 <= i < |scheme| :: v[i] == scheme[i] && scheme[i] != ':';
    assert SeparatorAt(v, |scheme|);
  }

  /** The first '?' of what follows ends the authority. */
  lemma QueryFound(authority: string, query: string, hasQuery: bool)
    requires '?' !in authority
    ensures var e := authority + Tail(query, hasQuery);
            && Find(e, '?', 0) == |authority| && e[..|authority|] == authority
            && (hasQuery <==> |authority| < |e|) && (hasQuery ==> e[|authority| + 1..] == query)
  {
    hide Find;
    var e := authority + Tail(query, hasQuery);
    assert forall i | 0 <= i < |authority| :: e[i] == authority[i] && authority[i] != '?';
    if hasQuery {
      assert e[|authority|] == '?';
      assert e[|authority| + 1..] == query;
    }
  }

  /** The last ':' of an authority with a port separates host and port. */
  lemma PortFound(host: string, digits: string)
    requires AllDigits(digits)
    ensures var t := host + ":" + digits;
            FindLast(t, ':', |t|) == |host| && t[..|host|] == host && t[|host| + 1..] == digits
  {
    var t := host + ":" + digits;
    assert t[|host|] == ':';
    assert forall i | |host| < i < |t| :: t[i] == digits[i - |host| - 1];
  }

  lemma NoColon(s: string)
    ensures FindLast(s, ':', |s|) == -1 <==> ':' !in s
  {
  }

  // ---------- The parser ----------

  datatype Result = Failure | Success(address: Address)

  /** Host and port; std::from_chars takes decimal digits and nothing else, and a value too large
      for its 32 bits is out of range here as well. */
  function ParseAuthority(authority: string, protocol: Protocol, allow: bool): Result {
    var sep := FindLast(authority, ':', |authority|);
    if authority == "" || '/' in authority then Failure
    else if sep == -1 then
      if allow && protocol.Roce? && HostOk(authority) then Success(Address(protocol, authority, 0)) else Failure
    else if sep == 0 || sep + 1 >= |authority| then Failure
    else
      var host, text := authority[..sep], authority[sep + 1..];
      if !AllDigits(text) then Failure
      else if DigitValue(text) > 65535 || (DigitValue(text) == 0 && !(allow && protocol.Roce?)) then Failure
      else if !HostOk(host) then Failure
      else Success(Address(protocol, host, DigitValue(text)))
  }

  /** What follows the scheme: authority and optional query. */
  function ParseEndpoint(endpoint: string, protocol: Protocol, allow: bool): Result {
    var mark := Find(endpoint, '?', 0);
    var query := if mark < |endpoint| then endpoint[mark + 1..] else "";
    if !QueryOk(query, protocol) then Failure else ParseAuthority(endpoint[..mark], protocol, allow)
  }

  /** parse_endpoint_addr. */
  function Parse(value: string, allow: bool): Result {
    var end := FindScheme(value, 0);
    if end == |value| || end == 0 then Failure
    else
      var protocol := ProtocolOf(value[..end]);
      if protocol.Invalid? then Failure else ParseEndpoint(value[end + 3..], protocol, allow)
  }

  lemma AuthorityComplete(a: Address, authority: string, allow: bool)
    requires AuthorityOk(a, authority, allow)
    ensures ParseAuthority(authority, a.protocol, allow) == Success(a)
  {
    hide FindLast, HostOk;
    NoColon(authority);
    if !Plain(a, authority, allow) {
      var digits :| WithPort(a, authority, allow, digits);
      PortFound(a.host, digits);
    }
  }

  lemma PortSplit(a: Address, authority: string, allow: bool, sep: nat, text: string)
    requires 0 < sep < |authority| && authority[sep] == ':' && text == authority[sep + 1..] && text != ""
    requires a.host == authority[..sep] && AllDigits(text) && DigitValue(text) == a.port <= 65535
    requires a.port == 0 ==> ZeroOk(a, allow)
    ensures WithPort(a, authority, allow, text)
  {
    hide AllDigits, DigitValue;
    CutAt(authority, sep, sep + 1);
    assert authority[sep..sep + 1] == ":";
  }

  lemma AuthoritySound(a: Address, authority: string, allow: bool)
    requires '?' !in authority && ParseAuthority(authority, a.protocol, allow) == Success(a)
    ensures AuthorityOk(a, authority, allow)
  {
    hide FindLast, HostOk, DigitValue, AllDigits, WithPort;
    NoColon(authority);
    var sep := FindLast(authority, ':', |authority|);
    if sep != -1 {
      PortSplit(a, authority, allow, sep, authority[sep + 1..]);
    }
  }

  /** The parser succeeds with an address exactly when the text denotes it. */
  lemma ParseExact(value: string, allow: bool, a: Address)
    ensures Denotes(value, allow, a) <==> Parse(value, allow) == Success(a)
  {
    if Denotes(value, allow, a) {
      ParseComplete(value, allow, a);
    }
    if Parse(value, allow) == Success(a) {
      ParseSound(value, allow, a);
    }
  }

  /** A spelled address is taken apart again where it was put together. */
  lemma ParseSpelled(value: string, allow: bool, a: Address, scheme: string, authority: string, query: string, hasQuery: bool)
    requires Spells(value, a, scheme, authority, query, hasQuery) && '?' !in authority
    ensures Parse(value, allow) == ParseAuthority(authority, a.protocol, allow)
  {
    var rest := authority + Tail(query, hasQuery);
    SchemeFound(scheme, rest);
    SchemeNotEmpty(scheme);
    Regroup(scheme, authority, Tail(query, hasQuery));
    EndpointSpelled(authority, query, hasQuery, a.protocol, allow);
    hide FindScheme, ParseEndpoint, ParseAuthority, QueryOk, ProtocolOf, Tail;
  }

  lemma EndpointSpelled(authority: string, query: string, hasQuery: bool, protocol: Protocol, allow: bool)
    requires '?' !in authority && (hasQuery ==> QueryOk(query, protocol))
    ensures ParseEndpoint(authority + Tail(query, hasQuery), protocol, allow) == ParseAuthority(authority, protocol, allow)
  {
    hide Find, ParseAuthority, QueryOk, Tail;
    QueryFound(authority, query, hasQuery);
    EmptyQuery(protocol);
  }

  lemma SchemeNotEmpty(scheme: string)
    requires !ProtocolOf(scheme).Invalid?
    ensures scheme != ""
  {
  }

  lemma Regroup(a: string, b: string, c: string)
    ensures a + "://" + b + c == a + "://" + (b + c)
  {
  }

  lemma ParseComplete(value: string, allow: bool, a: Address)
    requires Denotes(value, allow, a)
    ensures Parse(value, allow) == Success(a)
  {
    hide Parse, ParseAuthority, AuthorityOk, Spells;
    var scheme, authority, query, hasQuery :|
      Spells(value, a, scheme, authority, query, hasQuery) && AuthorityOk(a, authority, allow);
    NoMark(a, authority, allow);
    ParseSpelled(value, allow, a, scheme, authority, query, hasQuery);
    AuthorityComplete(a, authority, allow);
  }

  lemma NoMark(a: Address, authority: string, allow: bool)
    requires AuthorityOk(a, authority, allow)
    ensures '?' !in authority
  {
  }

  lemma EmptyQuery(p: Protocol)
    ensures QueryOk("", p)
  {
  }

  lemma CutAt(s: string, k: nat, m: nat)
    requires k <= m <= |s|
    ensures s == s[..k] + s[k..m] + s[m..]
  {
  }

  lemma SeparatorText(s: string, k: nat)
    requires SeparatorAt(s, k)
    ensures s[k..k + 3] == "://"
  {
  }

  lemma SplitScheme(value: string, end: nat)
    requires end < |value| && end == FindScheme(value, 0)
    ensures end + 3 <= |value| && value == value[..end] + "://" + value[end + 3..]
  {
    hide FindScheme;
    SeparatorText(value, end);
    CutAt(value, end, end + 3);
  }

  lemma SplitQuery(endpoint: string, mark: nat, query: string)
    requires mark <= |endpoint| && (mark < |endpoint| ==> endpoint[mark] == '?')
    requires query == if mark < |endpoint| then endpoint[mark + 1..] else ""
    requires forall i | 0 <= i < mark :: endpoint[i] != '?'
    ensures '?' !in endpoint[..mark] && endpoint == endpoint[..mark] + Tail(query, mark < |endpoint|)
  {
    if mark < |endpoint| {
      CutAt(endpoint, mark, mark + 1);
      assert endpoint[mark..mark + 1] == "?";
      assert endpoint[..mark] + "?" + query == endpoint[..mark] + ("?" + query);
    }
  }

  lemma ParseSound(value: string, allow: bool, a: Address)
    requires Parse(value, allow) == Success(a)
    ensures Denotes(value, allow, a)
  {
    hide Find, FindScheme, AuthorityOk, QueryOk, ParseAuthority, Tail, ProtocolOf, Spells;
    var end := FindScheme(value, 0);
    SplitScheme(value, end);
    var scheme, endpoint := value[..end], value[end + 3..];
    var mark := Find(endpoint, '?', 0);
    var authority, hasQuery := endpoint[..mark], mark < |endpoint|;
    var query := if hasQuery then endpoint[mark + 1..] else "";
    SplitQuery(endpoint, mark, query);
    ProtocolKept(authority, ProtocolOf(scheme), allow);
    AuthoritySound(a, authority, allow);
    Joined(value, a, scheme, authority, query, hasQuery);
  }

  lemma Joined(value: string, a: Address, scheme: string, authority: string, query: string, hasQuery: bool)
    requires value == scheme + "://" + (authority + Tail(query, hasQuery))
    requires ProtocolOf(scheme) == a.protocol && !a.protocol.Invalid? && (hasQuery ==> QueryOk(query, a.protocol))
    ensures Spells(value, a, scheme, authority, query, hasQuery)
  {
  }

  lemma ProtocolKept(authority: string, protocol: Protocol, allow: bool)
    ensures var r := ParseAuthority(authority, protocol, allow); r.Success? ==> r.address.protocol == protocol
  {
  }

  // ---------- The printer ----------

  /** make_endpoint_addr. */
  function Make(a: Address): string {
    if SchemeOf(a.protocol) == "" || a.host == "" then ""
    else if a.protocol.Roce? && a.port == 0 then SchemeOf(a.protocol) + "://" + a.host
    else if a.port == 0 then ""
    else SchemeOf(a.protocol) + "://" + a.host + ":" + Decimal(a.port)
  }

  lemma ParsedWhole(a: Address, allow: bool)
    requires a.port == 0 && ParseAuthority(a.host, a.protocol, allow) == Success(a)
    ensures allow && a.protocol.Roce? && ':' !in a.host
  {
    hide FindLast, HostOk;
    NoColon(a.host);
  }

  /** What is printed for an address whose host has no '/' or '?' denotes that address again,
      except that a RoCE address with port 0 is read back only where the port may be missing and
      only if its host has no ':'. */
  lemma PrintDenotes(a: Address, allow: bool)
    requires !a.protocol.Invalid? && a.port <= 65535 && HostOk(a.host) && a.host != ""
    requires '/' !in a.host && '?' !in a.host && (a.port == 0 ==> a.protocol.Roce?)
    ensures Denotes(Make(a), allow, a) <==> a.port != 0 || (allow && ':' !in a.host)
  {
    if a.port != 0 {
      PrintWithPort(a, allow);
    } else {
      PrintWithoutPort(a, allow);
    }
  }

  lemma PrintWithPort(a: Address, allow: bool)
    requires !a.protocol.Invalid? && 0 < a.port <= 65535 && HostOk(a.host) && a.host != ""
    requires '/' !in a.host && '?' !in a.host
    ensures Denotes(Make(a), allow, a)
  {
    hide HostOk, Decimal, DigitValue;
    var scheme, text := SchemeOf(a.protocol), Decimal(a.port);
    DecimalReads(a.port);
    assert WithPort(a, a.host + ":" + text, allow, text);
    assert scheme + "://" + a.host + ":" + text == scheme + "://" + (a.host + ":" + text);
    Joined(Make(a), a, scheme, a.host + ":" + text, "", false);
  }

  lemma WithoutPortParsed(host: string, allow: bool)
    requires '?' !in host && host != ""
    ensures Parse("roce" + "://" + host, allow) == ParseAuthority(host, Roce, allow)
  {
    hide Find, FindScheme, ParseAuthority;
    SchemeFound("roce", host);
    QueryFound(host, "", false);
    assert host + Tail("", false) == host;
    EmptyQuery(Roce);
  }

  lemma PrintWithoutPort(a: Address, allow: bool)
    requires a.protocol.Roce? && a.port == 0 && HostOk(a.host) && a.host != ""
    requires '/' !in a.host && '?' !in a.host
    ensures Denotes(Make(a), allow, a) <==> allow && ':' !in a.host
  {
    hide HostOk, Parse, ParseAuthority;
    if allow && ':' !in a.host {
      assert Plain(a, a.host, allow);
      Joined(Make(a), a, "roce", a.host, "", false);
    }
    if Denotes(Make(a), allow, a) {
      ParseComplete(Make(a), allow, a);
      WithoutPortParsed(a.host, allow);
      ParsedWhole(a, allow);
    }
  }

  // ---------- Round trips ----------

  /** A host without NUL characters is plain dotted-quad text. */
  lemma PlainHost(host: string)
    requires HostOk(host) && '\0' !in host
    ensures IsIpv4(host) && ':' !in host && '/' !in host && '?' !in host && host != ""
  {
    CStringOfPlain(host);
    Ipv4Chars(host);
  }

  lemma Ipv4IsHost(host: string)
    requires IsIpv4(host)
    ensures HostOk(host) && '\0' !in host
  {
    Ipv4Chars(host);
    CStringOfPlain(host);
  }

  lemma NoText(a: Address, allow: bool)
    ensures a.port == 0 && !a.protocol.Roce? ==> Make(a) == "" && Parse(Make(a), allow) == Failure
  {
  }

  /** Printing a valid address and parsing the text gives the address back; a RoCE port 0 is left
      out of the text and recovered where it may be missing, and refused where it may not. */
  lemma PrintThenParse(a: Address, allow: bool)
    requires !a.protocol.Invalid? && IsIpv4(a.host) && a.port <= 65535
    ensures a.port != 0 || a.protocol.Roce? ==>
              (Parse(Make(a), allow) == Success(a) <==> a.port != 0 || allow)
    ensures a.port == 0 && !a.protocol.Roce? ==> Make(a) == "" && Parse(Make(a), allow) == Failure
  {
    Ipv4IsHost(a.host);
    PlainHost(a.host);
    NoText(a, allow);
    hide Denotes, Parse, HostOk, IsIpv4, Make;
    if a.port != 0 || a.protocol.Roce? {
      PrintDenotes(a, allow);
      ParseExact(Make(a), allow, a);
    }
  }

  /** The text of each scheme, `rdma` being another name for RoCE, with a host and a port. */
  lemma SchemesParsed(a: nat, b: nat, c: nat, d: nat, port: nat, allow: bool)
    requires a <= 255 && b <= 255 && c <= 255 && d <= 255 && 0 < port <= 65535
    ensures var host := Quad(a, b, c, d);
            var text := host + ":" + Decimal(port);
            && Parse("tcp" + "://" + text, allow) == Success(Address(Tcp, host, port))
            && Parse("udp" + "://" + text, allow) == Success(Address(Udp, host, port))
            && Parse("roce" + "://" + text, allow) == Success(Address(Roce, host, port))
            && Parse("rdma" + "://" + text, allow) == Success(Address(Roce, host, port))
  {
    hide Parse, IsIpv4, Quad, HostOk;
    var host := Quad(a, b, c, d);
    QuadIs(a, b, c, d);
    Ipv4IsHost(host);
    PlainHost(host);
    SchemeParsed("tcp", Address(Tcp, host, port), allow);
    SchemeParsed("udp", Address(Udp, host, port), allow);
    SchemeParsed("roce", Address(Roce, host, port), allow);
    SchemeParsed("rdma", Address(Roce, host, port), allow);
  }

  lemma SchemeParsed(scheme: string, a: Address, allow: bool)
    requires ProtocolOf(scheme) == a.protocol && !a.protocol.Invalid? && 0 < a.port <= 65535
    requires HostOk(a.host) && a.host != "" && '/' !in a.host && '?' !in a.host
    ensures Parse(scheme + "://" + (a.host + ":" + Decimal(a.port)), allow) == Success(a)
  {
    hide HostOk, Decimal, DigitValue, Parse, ProtocolOf;
    var text := Decimal(a.port);
    DecimalReads(a.port);
    assert WithPort(a, a.host + ":" + text, allow, text);
    Joined(scheme + "://" + (a.host + ":" + text), a, scheme, a.host + ":" + text, "", false);
    ParseComplete(scheme + "://" + (a.host + ":" + text), allow, a);
  }

  /** What an accepted text says about the address it yields. */
  lemma ParsedAddress(value: string, allow: bool, a: Address)
    requires Parse(value, allow) == Success(a)
    ensures !a.protocol.Invalid? && a.port <= 65535 && HostOk(a.host) && a.host != ""
    ensures '/' !in a.host && '?' !in a.host && (a.port == 0 ==> allow && a.protocol.Roce?)
  {
    hide HostOk, QueryOk, Parse;
    ParseSound(value, allow, a);
    var scheme, authority, query, hasQuery :|
      Spells(value, a, scheme, authority, query, hasQuery) && AuthorityOk(a, authority, allow);
    if !Plain(a, authority, allow) {
      var digits :| WithPort(a, authority, allow, digits);
      assert forall i | 0 <= i < |a.host| :: authority[i] == a.host[i];
    }
  }

  /** Printing what was parsed and parsing again gives the same address exactly unless the port is
      0 and the host holds a ':'; so alias schemes, leading zeros and queries all settle. */
  lemma PrintedIsFixedPoint(value: string, allow: bool, a: Address)
    requires Parse(value, allow) == Success(a)
    ensures Parse(Make(a), allow) == Success(a) <==> a.port != 0 || ':' !in a.host
  {
    hide Parse, Denotes, HostOk;
    ParsedAddress(value, allow, a);
    PrintDenotes(a, allow);
    ParseExact(Make(a), allow, a);
  }

  /** What stands between the scheme and the query. */
  function AuthorityOf(value: string): string {
    var end := FindScheme(value, 0);
    if end == |value| then ""
    else
      var endpoint := value[end + 3..];
      endpoint[..Find(endpoint, '?', 0)]
  }

  /** A ':' before the last one, and nothing but zeros after the last. */
  predicate ZeroAfterColons(authority: string) {
    var sep := FindLast(authority, ':', |authority|);
    sep != -1 && ':' in authority[..sep] && forall i | sep < i < |authority| :: authority[i] == '0'
  }

  lemma {:induction false} ZeroDigits(s: string)
    requires AllDigits(s)
    ensures DigitValue(s) == 0 <==> forall i | 0 <= i < |s| :: s[i] == '0'
  {
    if s != "" {
      var n := |s| - 1;
      ZeroDigits(s[..n]);
      assert s[n] as int == '0' as int ==> s[n] == '0';
      assert forall i | 0 <= i < n :: s[..n][i] == s[i];
    }
  }

  lemma ParsedFrom(value: string, allow: bool, a: Address)
    requires Parse(value, allow) == Success(a)
    ensures ParseAuthority(AuthorityOf(value), a.protocol, allow) == Success(a)
  {
    hide ParseAuthority, Find, FindScheme, QueryOk, ProtocolOf;
    var end := FindScheme(value, 0);
    ProtocolKept(AuthorityOf(value), ProtocolOf(value[..end]), allow);
  }

  lemma AuthorityColons(authority: string, allow: bool, a: Address)
    requires ParseAuthority(authority, a.protocol, allow) == Success(a)
    ensures ZeroAfterColons(authority) <==> a.port == 0 && ':' in a.host
  {
    hide FindLast, HostOk, DigitValue;
    var sep := FindLast(authority, ':', |authority|);
    if sep != -1 {
      var text := authority[sep + 1..];
      ZeroDigits(text);
      assert forall i | 0 <= i < |text| :: text[i] == authority[i + sep + 1];
      assert forall i | sep < i < |authority| :: authority[i] == text[i - sep - 1];
    }
  }

  /** The texts that settle, told from the text: all but those whose authority has a ':' before
      its last ':' and only zeros after it. */
  lemma SettlesExactly(value: string, allow: bool, a: Address)
    requires Parse(value, allow) == Success(a)
    ensures Parse(Make(a), allow) == Success(a) <==> !ZeroAfterColons(AuthorityOf(value))
  {
    hide Parse, ParseAuthority, AuthorityOf, ZeroAfterColons, Make;
    PrintedIsFixedPoint(value, allow, a);
    ParsedFrom(value, allow, a);
    AuthorityColons(AuthorityOf(value), allow, a);
  }

  /** Such a host ends in a NUL character and more, so every text without NUL settles. */
  lemma FixedPointWithoutNul(value: string, allow: bool, a: Address)
    requires Parse(value, allow) == Success(a) && '\0' !in a.host
    ensures Parse(Make(a), allow) == Success(a)
  {
    hide Parse, HostOk;
    ParsedAddress(value, allow, a);
    PlainHost(a.host);
    PrintedIsFixedPoint(value, allow, a);
  }

  lemma {:induction false} CStringStops(s: string, rest: string)
    requires '\0' !in s
    ensures CString(s + "\0" + rest) == s
  {
    if s != "" {
      assert (s + "\0" + rest)[1..] == s[1..] + "\0" + rest;
      CStringStops(s[1..], rest);
    }
  }

  /** Texts that do not settle: inet_pton stops at a NUL character, and the second parse takes a ':'
      after it for the one before the port. */
  lemma NotAlwaysFixed(ip: string)
    requires IsIpv4(ip)
    ensures var a := Address(Roce, ip + "\0" + ":5", 0);
            Parse("roce" + "://" + (a.host + ":" + "0"), true) == Success(a) && Parse(Make(a), true) != Success(a)
  {
    var a := Address(Roce, ip + "\0" + ":5", 0);
    OddHost(ip);
    OddDenotes(a);
    hide HostOk, Parse, Denotes, Make, IsIpv4;
    var value := "roce" + "://" + (a.host + ":" + "0");
    ParseComplete(value, true, a);
    PrintedIsFixedPoint(value, true, a);
  }

  lemma OddHost(ip: string)
    requires IsIpv4(ip)
    ensures var host := ip + "\0" + ":5";
            HostOk(host) && host != "" && '/' !in host && '?' !in host && ':' in host
  {
    hide IsIpv4, CString;
    var host := ip + "\0" + ":5";
    Ipv4Chars(ip);
    Ipv4IsHost(ip);
    CStringStops(ip, ":5");
    assert host[|ip| + 1] == ':';
  }

  lemma OddDenotes(a: Address)
    requires a.protocol.Roce? && a.port == 0 && HostOk(a.host) && a.host != "" && '/' !in a.host && '?' !in a.host
    ensures Denotes("roce" + "://" + (a.host + ":" + "0"), true, a)
  {
    hide HostOk;
    var authority := a.host + ":" + "0";
    assert "0"[..0] == "";
    assert WithPort(a, authority, true, "0");
    Joined("roce" + "://" + (a.host + ":" + "0"), a, "roce", authority, "", false);
  }
}
