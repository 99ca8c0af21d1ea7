/**
 The query of a share link: parameters joined with "&", some of them empty, and a
 repair that halves runs of "&".  What a reader sees are the non-empty pieces.
 */
module ShareUri {
  import opened Common
  import opened Text

  // ---------------------------------------------------------------- pieces

  function NonEmpty(parts: seq<string>): (r: seq<string>)
    ensures forall p :: p in r <==> p in parts && p != ""
  {
    if parts == [] then []
    else (if parts[0] == "" then [] else [parts[0]]) + NonEmpty(parts[1..])
  }

  lemma {:induction false} NonEmptyAppend(a: seq<string>, b: seq<string>)
    ensures NonEmpty(a + b) == NonEmpty(a) + NonEmpty(b)
  {
    if a == [] {
      assert a + b == b;
    } else {
      NonEmptyAppend(a[1..], b);
      TailOfSum(a, b);
      Regroup(if a[0] == "" then [] else [a[0]], NonEmpty(a[1..]), NonEmpty(b));
    }
  }

  /** What a reader of a query takes for its parameters. */
  function Pieces(s: string): seq<string> {
    NonEmpty(Split(s, '&'))
  }

  // ---------------------------------------------------------------- the repair

  /** strings.ReplaceAll(uri, "&&", "&"): one pass from the left, so a run of three becomes two. */
  function FixUri(s: string): string {
    if |s| >= 2 && s[0] == '&' && s[1] == '&' then "&" + FixUri(s[2..])
    else if s == "" then ""
    else [s[0]] + FixUri(s[1..])
  }

  /** The same text before the first separator, and the same pieces after it. */
  ghost predicate SamePieces(a: seq<string>, b: seq<string>)
    requires a != [] && b != []
  {
    a[0] == b[0] && NonEmpty(a[1..]) == NonEmpty(b[1..])
  }

  lemma {:induction false} FixKeepsSplit(s: string)
    ensures SamePieces(Split(FixUri(s), '&'), Split(s, '&'))
    decreases |s|
  {
    if |s| >= 2 && s[0] == '&' && s[1] == '&' {
      FixKeepsSplit(s[2..]);
      FixPair(s, Split(FixUri(s[2..]), '&'), Split(s[2..], '&'));
    } else if s != "" {
      FixKeepsSplit(s[1..]);
      FixOne(s, Split(FixUri(s[1..]), '&'), Split(s[1..], '&'));
    }
  }

  lemma FixPair(s: string, a: seq<string>, b: seq<string>)
    requires |s| >= 2 && s[0] == '&' && s[1] == '&'
    requires a == Split(FixUri(s[2..]), '&') && b == Split(s[2..], '&') && SamePieces(a, b)
    ensures SamePieces(Split(FixUri(s), '&'), Split(s, '&'))
  {
    var f := FixUri(s);
    assert f[1..] == FixUri(s[2..]);
    assert Split(f, '&') == [""] + a;
    assert s[1..][1..] == s[2..];
    assert Split(s, '&') == [""] + ([""] + b);
    assert ([""] + a)[1..] == a && ([""] + ([""] + b))[1..] == [""] + b && ([""] + b)[1..] == b;
  }

  lemma FixOne(s: string, a: seq<string>, b: seq<string>)
    requires s != "" && !(|s| >= 2 && s[0] == '&' && s[1] == '&')
    requires a == Split(FixUri(s[1..]), '&') && b == Split(s[1..], '&') && SamePieces(a, b)
    ensures SamePieces(Split(FixUri(s), '&'), Split(s, '&'))
  {
    var f := FixUri(s);
    assert f[0] == s[0] && f[1..] == FixUri(s[1..]);
    if s[0] == '&' {
      assert Split(f, '&') == [""] + a && Split(s, '&') == [""] + b;
      assert ([""] + a)[1..] == a && ([""] + b)[1..] == b;
    } else {
      var x, y := [[s[0]] + a[0]] + a[1..], [[s[0]] + b[0]] + b[1..];
      assert Split(f, '&') == x && Split(s, '&') == y;
      assert x[1..] == a[1..] && y[1..] == b[1..];
    }
  }

  /** Whatever the text, the repair changes none of its pieces. */
  lemma FixKeepsPieces(s: string)
    ensures Pieces(FixUri(s)) == Pieces(s)
  {
    FixKeepsSplit(s);
  }

  function Amps(n: nat): (s: string)
    ensures |s| == n
  {
    seq(n, i => '&')
  }

  /** What the repair does: a run of n separators becomes one of half as many, rounded up; all else stays. */
  lemma {:induction false} FixHalves(n: nat, rest: string)
    requires rest == "" || rest[0] != '&'
    ensures FixUri(Amps(n) + rest) == Amps((n + 1) / 2) + FixUri(rest)
  {
    if n == 0 {
      assert Amps(0) + rest == rest && Amps(0) + FixUri(rest) == FixUri(rest);
    } else if n == 1 {
      LoneAmp(rest);
      assert Amps(1) == "&";
    } else {
      FixHalves(n - 2, rest);
      AmpPair(Amps(n - 2) + rest);
      AmpsMore(n, rest);
      AmpsMore((n + 1) / 2, FixUri(rest));
    }
  }

  lemma AmpsMore(n: nat, rest: string)
    ensures n >= 1 ==> Amps(n) + rest == "&" + (Amps(n - 1) + rest)
    ensures n >= 2 ==> Amps(n) + rest == "&&" + (Amps(n - 2) + rest)
  {
  }

  lemma LoneAmp(rest: string)
    requires rest == "" || rest[0] != '&'
    ensures FixUri("&" + rest) == "&" + FixUri(rest)
  {
    assert ("&" + rest)[1..] == rest;
  }

  lemma AmpPair(rest: string)
    ensures FixUri("&&" + rest) == "&" + FixUri(rest)
  {
    assert ("&&" + rest)[2..] == rest;
  }

  lemma FixKeepsOthers(c: char, rest: string)
    requires c != '&'
    ensures FixUri([c] + rest) == [c] + FixUri(rest)
  {
    assert ([c] + rest)[1..] == rest;
  }

  // ---------------------------------------------------------------- joined parameters

  lemma {:induction false} PiecesAppend(a: string, b: string)
    ensures Split(a + "&" + b, '&') == Split(a, '&') + Split(b, '&')
  {
    var s := a + "&" + b;
    if a == "" {
      assert s[1..] == b;
    } else {
      PiecesAppend(a[1..], b);
      assert s[0] == a[0] && s[1..] == a[1..] + "&" + b;
      SplitFirst(a, Split(a[1..], '&'), Split(b, '&'));
    }
  }

  lemma SplitFirst(a: string, x: seq<string>, y: seq<string>)
    requires a != "" && x == Split(a[1..], '&')
    ensures (if a[0] == '&' then [""] + (x + y) else [[a[0]] + (x + y)[0]] + (x + y)[1..]) == Split(a, '&') + y
  {
    if a[0] == '&' {
      Regroup([""], x, y);
    } else {
      TailOfSum(x, y);
      Regroup([[a[0]] + x[0]], x[1..], y);
    }
  }

  lemma TailOfSum(x: seq<string>, y: seq<string>)
    requires x != []
    ensures (x + y)[0] == x[0] && (x + y)[1..] == x[1..] + y
  {
  }

  function Flatten(parts: seq<string>): seq<string> {
    if parts == [] then [] else Pieces(parts[0]) + Flatten(parts[1..])
  }

  lemma {:induction false} PiecesJoin(parts: seq<string>)
    ensures Pieces(Join(parts, '&')) == Flatten(parts)
  {
    if |parts| == 1 {
      assert Flatten(parts[1..]) == [];
    } else if |parts| > 1 {
      PiecesJoin(parts[1..]);
      PiecesAppend(parts[0], Join(parts[1..], '&'));
      NonEmptyAppend(Split(parts[0], '&'), Split(Join(parts[1..], '&'), '&'));
      assert parts[0] + ['&'] + Join(parts[1..], '&') == parts[0] + "&" + Join(parts[1..], '&');
    }
  }

  lemma OnePiece(s: string)
    requires s != "" && '&' !in s
    ensures Pieces(s) == [s]
  {
    SplitPiece(s, '&');
    assert NonEmpty([s]) == [s];
  }

  // ---------------------------------------------------------------- the parameters of a link

  datatype Param = Param(key: string, value: string)

  function Show(p: Param): string {
    p.key + "=" + p.value
  }

  function ShowAll(ps: seq<Param>): seq<string> {
    seq(|ps|, i requires 0 <= i < |ps| => Show(ps[i]))
  }

  /** A parameter that is left out when its value is empty. */
  function Optional(key: string, value: string): seq<Param> {
    if |value| > 0 then [Param(key, value)] else []
  }

  datatype Transport =
    | Tcp
    | Http2(path: string, host: string)
    | WebSocket(path: string, host: string)
    | Mkcp(headerType: string, seed: string)
    | Quic(quicSecurity: string, key: string, headerType: string)
    | Grpc(serviceName: string, mode: string)

  function TransportParams(t: Transport): seq<Param> {
    match t
    case Tcp => []
    case Http2(path, host) => Optional("path", path) + Optional("host", host)
    case WebSocket(path, host) => Optional("path", path) + Optional("host", host)
    case Mkcp(headerType, seed) => Optional("headerType", headerType) + Optional("seed", seed)
    case Quic(quicSecurity, key, headerType) =>
      (if quicSecurity != "none" then [Param("quicSecurity", quicSecurity), Param("key", key)] else [])
      + Optional("headerType", headerType)
    case Grpc(serviceName, mode) => Optional("serviceName", serviceName) + Optional("mode", mode)
  }

  datatype Link = Link(network: string, security: string, transport: Transport, sni: string, alpn: string, flow: string)

  /** All parameters, in order. */
  function Params(l: Link): seq<Param> {
    [Param("type", l.network)]
    + (Optional("security", l.security) + TransportParams(l.transport))
    + (Optional("sni", l.sni) + Optional("alpn", l.alpn))
    + Optional("flow", l.flow)
  }

  // ---------------------------------------------------------------- building

  /** Parameters that are given, joined. */
  function JoinParams(ps: seq<Param>): string {
    Join(ShowAll(ps), '&')
  }

  /** A piece of text that is left out when its value is empty. */
  function Given(prefix: string, value: string): seq<string> {
    if |value| > 0 then [prefix + value] else []
  }

  function BuildTransport(t: Transport): string {
    match t
    case Tcp => ""
    case Http2(path, host) => Join(Given("path=", path) + Given("host=", host), '&')
    case WebSocket(path, host) => Join(Given("path=", path) + Given("host=", host), '&')
    case Mkcp(headerType, seed) => Join(Given("headerType=", headerType) + Given("seed=", seed), '&')
    case Quic(quicSecurity, key, headerType) =>
      Join((if quicSecurity != "none" then ["quicSecurity=" + quicSecurity + "&key=" + key] else [])
           + Given("headerType=", headerType), '&')
    case Grpc(serviceName, mode) => Join(Given("serviceName=", serviceName) + Given("mode=", mode), '&')
  }

  function BuildSecurityAndTransport(l: Link): string {
    var uri := BuildTransport(l.transport);
    Join(Given("security=", l.security) + (if |uri| > 0 then [uri] else []), '&')
  }

  function BuildTLS(l: Link): string {
    Join(Given("sni=", l.sni) + Given("alpn=", l.alpn), '&')
  }

  function Query(l: Link): string {
    FixUri(Join(["type=" + l.network, BuildSecurityAndTransport(l), BuildTLS(l)] + Given("flow=", l.flow), '&'))
  }

  predicate Clean(ps: seq<Param>) {
    forall i :: 0 <= i < |ps| ==> '&' !in ps[i].value
  }

  predicate GoodKey(key: string) {
    '&' !in key && '=' !in key && key != ""
  }

  predicate Keyed(ps: seq<Param>) {
    forall i :: 0 <= i < |ps| ==> GoodKey(ps[i].key)
  }

  /** The keys in use. */
  lemma TransportKeysAreGood()
    ensures GoodKey("path") && GoodKey("host") && GoodKey("headerType") && GoodKey("seed")
    ensures GoodKey("quicSecurity") && GoodKey("key") && GoodKey("serviceName") && GoodKey("mode")
  {
  }

  lemma OtherKeysAreGood()
    ensures GoodKey("type") && GoodKey("security") && GoodKey("sni") && GoodKey("alpn") && GoodKey("flow")
  {
  }

  lemma TransportKeyed(t: Transport)
    ensures Keyed(TransportParams(t))
  {
    TransportKeysAreGood();
    hide GoodKey;
  }

  lemma ParamsKeyed(l: Link)
    ensures Keyed(Params(l))
  {
    OtherKeysAreGood();
    hide GoodKey;
    TransportKeyed(l.transport);
    hide TransportParams;
  }

  // ---------------------------------------------------------------- what a reader sees

  lemma {:induction false} FlattenAppend(a: seq<string>, b: seq<string>)
    ensures Flatten(a + b) == Flatten(a) + Flatten(b)
  {
    if a == [] {
      assert a + b == b;
    } else {
      FlattenAppend(a[1..], b);
      TailOfSum(a, b);
      Regroup(Pieces(a[0]), Flatten(a[1..]), Flatten(b));
    }
  }

  lemma Regroup(x: seq<string>, y: seq<string>, z: seq<string>)
    ensures x + (y + z) == (x + y) + z
  {
  }

  /** The pieces of some parameters. */
  function Seen(ps: seq<Param>): seq<string> {
    Flatten(ShowAll(ps))
  }

  lemma SeenAppend(a: seq<Param>, b: seq<Param>)
    ensures Seen(a + b) == Seen(a) + Seen(b)
  {
    assert ShowAll(a + b) == ShowAll(a) + ShowAll(b);
    FlattenAppend(ShowAll(a), ShowAll(b));
  }

  lemma PiecesOfParams(ps: seq<Param>)
    ensures Pieces(JoinParams(ps)) == Seen(ps)
  {
    PiecesJoin(ShowAll(ps));
  }

  lemma FlattenOne(s: string)
    ensures Flatten([s]) == Pieces(s)
  {
    assert Flatten([s][1..]) == [];
  }

  lemma GivenIsShown(key: string, prefix: string, value: string)
    requires prefix == key + "="
    ensures Given(prefix, value) == ShowAll(Optional(key, value))
  {
  }

  /** Two optional parameters, joined. */
  lemma PiecesOfTwo(k1: string, p1: string, v1: string, k2: string, p2: string, v2: string)
    requires p1 == k1 + "=" && p2 == k2 + "="
    ensures Pieces(Join(Given(p1, v1) + Given(p2, v2), '&')) == Seen(Optional(k1, v1) + Optional(k2, v2))
  {
    GivenIsShown(k1, p1, v1);
    GivenIsShown(k2, p2, v2);
    var ps := Optional(k1, v1) + Optional(k2, v2);
    assert ShowAll(ps) == ShowAll(Optional(k1, v1)) + ShowAll(Optional(k2, v2));
    PiecesOfParams(ps);
  }

  lemma PiecesOfTransport(t: Transport)
    ensures Pieces(BuildTransport(t)) == Seen(TransportParams(t))
  {
    hide Pieces, Flatten, Given, Optional;
    match t {
      case Tcp =>
        FlattenNone();
        assert ShowAll([]) == [];
      case Http2(path, host) => PiecesOfTwo("path", "path=", path, "host", "host=", host);
      case WebSocket(path, host) => PiecesOfTwo("path", "path=", path, "host", "host=", host);
      case Mkcp(headerType, seed) => PiecesOfTwo("headerType", "headerType=", headerType, "seed", "seed=", seed);
      case Grpc(serviceName, mode) => PiecesOfTwo("serviceName", "serviceName=", serviceName, "mode", "mode=", mode);
      case Quic(quicSecurity, key, headerType) => PiecesOfQuic(quicSecurity, key, headerType);
    }
  }

  lemma PiecesOfQuic(quicSecurity: string, key: string, headerType: string)
    ensures Pieces(BuildTransport(Quic(quicSecurity, key, headerType)))
         == Seen(TransportParams(Quic(quicSecurity, key, headerType)))
  {
    hide Pieces, Flatten;
    GivenIsShown("headerType", "headerType=", headerType);
    var header := Optional("headerType", headerType);
    if quicSecurity != "none" {
      var both := "quicSecurity=" + quicSecurity + "&key=" + key;
      PiecesJoin([both] + ShowAll(header));
      FlattenAppend([both], ShowAll(header));
      FlattenOne(both);
      PiecesOfPair(Param("quicSecurity", quicSecurity), Param("key", key), both);
      SeenAppend([Param("quicSecurity", quicSecurity), Param("key", key)], header);
    } else {
      assert [] + ShowAll(header) == ShowAll(header) && [] + header == header;
      PiecesJoin(ShowAll(header));
    }
  }

  lemma PiecesOfPair(p: Param, q: Param, both: string)
    requires both == Show(p) + "&" + Show(q)
    ensures Pieces(both) == Seen([p, q])
  {
    PiecesOfParams([p, q]);
    var shown := ShowAll([p, q]);
    assert shown == [Show(p), Show(q)];
    assert shown[1..] == [Show(q)];
    assert Join(shown, '&') == Show(p) + ['&'] + Show(q);
    assert both == Show(p) + ['&'] + Show(q);
  }

  lemma PiecesOfSecurity(l: Link)
    ensures Pieces(BuildSecurityAndTransport(l))
        == Seen(Optional("security", l.security) + TransportParams(l.transport))
  {
    hide Flatten, TransportParams, BuildTransport;
    GivenIsShown("security", "security=", l.security);
    var uri, security := BuildTransport(l.transport), Optional("security", l.security);
    var last := if |uri| > 0 then [uri] else [];
    PiecesJoin(ShowAll(security) + last);
    FlattenAppend(ShowAll(security), last);
    PiecesOfTransport(l.transport);
    SeenAppend(security, TransportParams(l.transport));
    if |uri| > 0 { FlattenOne(uri); } else { FlattenNone(); }
  }

  lemma FlattenNone()
    ensures Flatten([]) == [] && Pieces("") == []
  {
  }

  /** The pieces of the query are those of its parameters one by one. */
  lemma PiecesOfQuery(l: Link)
    ensures Pieces(Query(l)) == Seen(Params(l))
  {
    hide Pieces, Flatten, TransportParams, FixUri, BuildSecurityAndTransport, Optional, Given;
    GivenIsShown("flow", "flow=", l.flow);
    var first, second, third := "type=" + l.network, BuildSecurityAndTransport(l), BuildTLS(l);
    assert first == Show(Param("type", l.network));
    var tls, flow := Optional("sni", l.sni) + Optional("alpn", l.alpn), Optional("flow", l.flow);
    var three := [first, second, third];
    FixKeepsPieces(Join(three + ShowAll(flow), '&'));
    PiecesJoin(three + ShowAll(flow));
    FlattenAppend(three, ShowAll(flow));
    FlattenThree(first, second, third);
    PiecesOfSecurity(l);
    PiecesOfTwo("sni", "sni=", l.sni, "alpn", "alpn=", l.alpn);
    var p, q := [Param("type", l.network)], Optional("security", l.security) + TransportParams(l.transport);
    assert ShowAll(p) == [first];
    FlattenOne(first);
    SeenAppend(p, q);
    SeenAppend(p + q, tls);
    SeenAppend(p + q + tls, flow);
  }

  lemma FlattenThree(a: string, b: string, c: string)
    ensures Flatten([a, b, c]) == Pieces(a) + Pieces(b) + Pieces(c)
  {
    assert [a, b, c] == [a] + [b] + [c];
    FlattenAppend([a] + [b], [c]);
    FlattenAppend([a], [b]);
    FlattenOne(a);
    FlattenOne(b);
    FlattenOne(c);
  }

  /** Parameters are seen as they are exactly when no value holds a separator. */
  lemma {:induction false} SeenClean(ps: seq<Param>)
    requires Keyed(ps) && Clean(ps)
    ensures Seen(ps) == ShowAll(ps)
  {
    if ps != [] {
      SeenClean(ps[1..]);
      OnePiece(Show(ps[0]));
      assert ShowAll(ps)[1..] == ShowAll(ps[1..]);
    }
  }

  lemma {:induction false} SeenPiecesClean(parts: seq<string>)
    ensures forall p :: p in Flatten(parts) ==> '&' !in p
  {
    if parts != [] {
      SeenPiecesClean(parts[1..]);
      PiecesAreClean(parts[0], '&');
    }
  }

  // ---------------------------------------------------------------- reading a query

  /** A piece is cut at its first "=". */
  function Cut(s: string): Param {
    if s == "" then Param("", "")
    else if s[0] == '=' then Param("", s[1..])
    else
      var rest := Cut(s[1..]);
      Param([s[0]] + rest.key, rest.value)
  }

  lemma {:induction false} CutShown(key: string, value: string)
    requires '=' !in key
    ensures Cut(key + "=" + value) == Param(key, value)
  {
    var s := key + "=" + value;
    if key == "" {
      assert s[1..] == value;
    } else {
      CutShown(key[1..], value);
      assert s[1..] == key[1..] + "=" + value;
      assert key == [key[0]] + key[1..];
    }
  }

  lemma {:induction false} CutClean(s: string)
    requires '&' !in s
    ensures '&' !in Cut(s).value
  {
    if s != "" && s[0] != '=' { CutClean(s[1..]); }
  }

  function ReadQuery(s: string): (ps: seq<Param>)
    ensures |ps| == |Pieces(s)|
  {
    seq(|Pieces(s)|, i requires 0 <= i < |Pieces(s)| => Cut(Pieces(s)[i]))
  }

  lemma ReadClean(s: string)
    ensures Clean(ReadQuery(s))
  {
    PiecesAreClean(s, '&');
    forall i | 0 <= i < |Pieces(s)| ensures '&' !in ReadQuery(s)[i].value {
      assert Pieces(s)[i] in Pieces(s);
      CutClean(Pieces(s)[i]);
    }
  }

  /** The query of a link is read back as its parameters, in order, exactly when no value holds a separator. */
  lemma ReadBack(l: Link)
    ensures ReadQuery(Query(l)) == Params(l) <==> Clean(Params(l))
  {
    hide Pieces, Query, Params, Cut;
    PiecesOfQuery(l);
    ParamsKeyed(l);
    ReadClean(Query(l));
    var ps := Params(l);
    if Clean(ps) {
      SeenClean(ps);
      forall i | 0 <= i < |ps| ensures Cut(ShowAll(ps)[i]) == ps[i] {
        CutShown(ps[i].key, ps[i].value);
      }
    }
  }

  // ---------------------------------------------------------------- looking a parameter up

  /** The value of the first parameter with this key. */
  function Lookup(ps: seq<Param>, key: string): Option<string> {
    if ps == [] then None
    else if ps[0].key == key then Some(ps[0].value)
    else Lookup(ps[1..], key)
  }

  function NonEmptyValue(v: string): Option<string> {
    if v == "" then None else Some(v)
  }

  /** What a link says under a key: field by field. */
  function Says(l: Link, key: string): Option<string> {
    if key == "type" then Some(l.network)
    else if key == "security" then NonEmptyValue(l.security)
    else if key == "sni" then NonEmptyValue(l.sni)
    else if key == "alpn" then NonEmptyValue(l.alpn)
    else if key == "flow" then NonEmptyValue(l.flow)
    else TransportSays(l.transport, key)
  }

  function TransportSays(t: Transport, key: string): Option<string> {
    if key == "path" then
      if t.Http2? || t.WebSocket? then NonEmptyValue(t.path) else None
    else if key == "host" then
      if t.Http2? || t.WebSocket? then NonEmptyValue(t.host) else None
    else if key == "headerType" then
      if t.Mkcp? || t.Quic? then NonEmptyValue(t.headerType) else None
    else if key == "seed" then
      if t.Mkcp? then NonEmptyValue(t.seed) else None
    else if key == "quicSecurity" then
      if t.Quic? && t.quicSecurity != "none" then Some(t.quicSecurity) else None
    else if key == "key" then
      if t.Quic? && t.quicSecurity != "none" then Some(t.key) else None
    else if key == "serviceName" then
      if t.Grpc? then NonEmptyValue(t.serviceName) else None
    else if key == "mode" then
      if t.Grpc? then NonEmptyValue(t.mode) else None
    else None
  }

  lemma {:induction false} LookupAppend(a: seq<Param>, b: seq<Param>, key: string)
    ensures Lookup(a + b, key) == if Lookup(a, key).Some? then Lookup(a, key) else Lookup(b, key)
  {
    if a == [] {
      assert a + b == b;
    } else {
      LookupAppend(a[1..], b, key);
      assert (a + b)[1..] == a[1..] + b;
    }
  }

  lemma LookupOptional(name: string, value: string, key: string)
    ensures Lookup(Optional(name, value), key) == if key == name then NonEmptyValue(value) else None
  {
    assert Lookup([], key) == None;
  }

  lemma LookupTwo(k1: string, v1: string, k2: string, v2: string, key: string)
    ensures Lookup(Optional(k1, v1) + Optional(k2, v2), key) ==
            if key == k1 && v1 != "" then Some(v1) else if key == k2 then NonEmptyValue(v2) else None
  {
    LookupAppend(Optional(k1, v1), Optional(k2, v2), key);
    LookupOptional(k1, v1, key);
    LookupOptional(k2, v2, key);
  }

  /** Keys of equal length differ in their first letter. */
  lemma KeysDiffer()
    ensures |"type"| == 4 && "type"[0] == 't' && |"security"| == 8 && |"sni"| == 3 && "sni"[0] == 's'
    ensures |"alpn"| == 4 && "alpn"[0] == 'a' && |"flow"| == 4 && "flow"[0] == 'f'
    ensures |"path"| == 4 && "path"[0] == 'p' && |"host"| == 4 && "host"[0] == 'h'
    ensures |"headerType"| == 10 && |"seed"| == 4 && "seed"[0] == 's' && |"quicSecurity"| == 12
    ensures |"key"| == 3 && "key"[0] == 'k' && |"serviceName"| == 11 && |"mode"| == 4 && "mode"[0] == 'm'
  {
  }

  lemma LookupTransport(t: Transport, key: string)
    ensures Lookup(TransportParams(t), key) == TransportSays(t, key)
  {
    KeysDiffer();
    match t {
      case Tcp =>
      case Http2(path, host) => LookupTwo("path", path, "host", host, key);
      case WebSocket(path, host) => LookupTwo("path", path, "host", host, key);
      case Mkcp(headerType, seed) => LookupTwo("headerType", headerType, "seed", seed, key);
      case Grpc(serviceName, mode) => LookupTwo("serviceName", serviceName, "mode", mode, key);
      case Quic(quicSecurity, k, headerType) =>
        var two := [Param("quicSecurity", quicSecurity), Param("key", k)];
        LookupOptional("headerType", headerType, key);
        if quicSecurity != "none" {
          LookupAppend(two, Optional("headerType", headerType), key);
          LookupPair(two[0], two[1], key);
        } else {
          assert [] + Optional("headerType", headerType) == Optional("headerType", headerType);
        }
    }
    hide Lookup, Optional;
  }

  lemma LookupPair(p: Param, q: Param, key: string)
    ensures Lookup([p, q], key) == if p.key == key then Some(p.value) else if q.key == key then Some(q.value) else None
  {
    assert [p, q][1..] == [q] && [q][1..] == [];
    assert Lookup([q], key) == if q.key == key then Some(q.value) else Lookup([], key);
  }

  lemma LookupParams(l: Link, key: string)
    ensures Lookup(Params(l), key) == Says(l, key)
  {
    KeysDiffer();
    var first, t := [Param("type", l.network)], TransportParams(l.transport);
    var security, tls, flow := Optional("security", l.security), Optional("sni", l.sni) + Optional("alpn", l.alpn),
        Optional("flow", l.flow);
    assert Lookup(first, key) == if key == "type" then Some(l.network) else None by {
      assert first[1..] == [];
    }
    LookupOptional("security", l.security, key);
    LookupTwo("sni", l.sni, "alpn", l.alpn, key);
    LookupOptional("flow", l.flow, key);
    LookupTransport(l.transport, key);
    LookupAppend(security, t, key);
    LookupAppend(first, security + t, key);
    LookupAppend(first + (security + t), tls, key);
    LookupAppend(first + (security + t) + tls, flow, key);
    OwnKeysOnly(l.transport, key);
    hide Lookup, Optional, TransportParams, TransportSays;
  }

  /** The keys of the transports are not those of the rest. */
  lemma OwnKeysOnly(t: Transport, key: string)
    ensures key == "type" || key == "security" || key == "sni" || key == "alpn" || key == "flow" ==>
        TransportSays(t, key) == None
  {
    KeysDiffer();
  }

  /** Whoever reads the query of a clean link finds under every key what the link says there, and nothing else. */
  lemma ReaderFinds(l: Link, key: string)
    requires Clean(Params(l))
    ensures Lookup(ReadQuery(Query(l)), key) == Says(l, key)
  {
    ReadBack(l);
    LookupParams(l, key);
    hide Lookup, Query, Params, Says, ReadQuery;
  }

  // ---------------------------------------------------------------- in place

  /** A share link as an object; building it without SNI clears the name for good. */
  class VlessShareConfig {
    const base: string      // user, host and port
    const link: Link        // all but the SNI
    const nodeName: string
    const useSNI: bool
    var sni: string

    constructor (base: string, link: Link, nodeName: string, useSNI: bool)
      ensures this.base == base && Abs() == link && this.nodeName == nodeName && this.useSNI == useSNI
    {
      this.base, this.link, this.nodeName, this.useSNI, sni := base, link, nodeName, useSNI, link.sni;
    }

    function Abs(): (l: Link)
      reads this
    {
      link.(sni := sni)
    }

    method Build() returns (uri: string)
      modifies this
      ensures Abs() == if useSNI then old(Abs()) else old(Abs()).(sni := "")
      ensures uri == base + "?" + Query(Abs()) + "#" + nodeName
    {
      if !useSNI { sni := ""; }
      var l := Abs();
      var params := ["type=" + l.network, BuildSecurityAndTransport(l), BuildTLS(l)];
      if l.flow != "" {
        params := params + ["flow=" + l.flow];
      } else {
        assert params + Given("flow=", l.flow) == params;
      }
      uri := base + "?" + FixUri(Join(params, '&')) + "#" + nodeName;
    }
  }
}
