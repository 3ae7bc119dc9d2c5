// Service manifests (orchestrator/validate.py).
module Manifests {
  import opened Bytes

  /** The scored rungs, in ladder order. */
  datatype Rung = Udp | Http09 | Http10 | Http11 | Http2 | Http3

  const LADDER: seq<Rung> := [Udp, Http09, Http10, Http11, Http2, Http3]

  function Version(r: Rung): string {
    match r
    case Udp => "udp"
    case Http09 => "0.9"
    case Http10 => "1.0"
    case Http11 => "1.1"
    case Http2 => "2"
    case Http3 => "3"
  }

  const TRANSPORTS: set<string> := {"tcp", "udp", "quic"}
  const HTTP_VERSIONS: set<string> := {"0.9", "1.0", "1.1", "2", "3"}
  const TCP_VERSIONS: set<string> := {"0.9", "1.0", "1.1", "2"}
  const KNOWN_CAPS: set<string> := {"NET_RAW", "NET_ADMIN", "SYS_ADMIN"}
  const HTTP_ORDER: seq<Rung> := [Http09, Http10, Http11, Http2, Http3]

  /** The keys of one table of the manifest file, where present. */
  datatype Table = Table(
    name: Option<string>, transports: Option<seq<string>>, versions: Option<seq<string>>,
    tcpPort: Option<int>, udpPort: Option<int>, build: Option<string>, run: Option<string>,
    caps: Option<seq<string>>, health: Option<string>, docroot: Option<string>)

  const EMPTY: Table := Table(None, None, None, None, None, None, None, None, None, None)

  datatype Manifest = Manifest(
    name: string, transports: set<string>, versions: seq<Rung>, build: string, run: string,
    tcpPort: int, udpPort: int, docroot: string, caps: set<string>, health: string, healthPath: string)

  function First<T>(a: Option<T>, b: Option<T>): Option<T> {
    if a.Some? then a else b
  }

  /** Top-level keys win over those of the service table. */
  function Merge(top: Table, service: Table): Table {
    Table(First(top.name, service.name), First(top.transports, service.transports),
          First(top.versions, service.versions), First(top.tcpPort, service.tcpPort),
          First(top.udpPort, service.udpPort), First(top.build, service.build), First(top.run, service.run),
          First(top.caps, service.caps), First(top.health, service.health), First(top.docroot, service.docroot))
  }

  function Elements(s: Option<seq<string>>): set<string> {
    if s.None? then {} else set x | x in s.value
  }

  /** A value Python takes for true. */
  predicate Given(s: Option<string>) {
    s.Some? && s.value != ""
  }

  predicate GivenPort(p: Option<int>) {
    p.Some? && p.value != 0
  }

  predicate PortInRange(p: Option<int>) {
    p.None? || 1 <= p.value <= 65535
  }

  predicate HasDots(s: string) {
    exists i :: 0 <= i < |s| - 1 && s[i] == '.' && s[i + 1] == '.'
  }

  predicate RelativePath(s: string) {
    s != "" && s[0] != '/' && !HasDots(s)
  }

  predicate TransportsFit(t: set<string>, v: set<string>) {
    && t != {} && t <= TRANSPORTS && v <= HTTP_VERSIONS
    && ("quic" in t ==> "udp" in t)
    && (v * TCP_VERSIONS != {} ==> "tcp" in t)
    && ("3" in v ==> "quic" in t)
  }

  predicate PortsFit(t: set<string>, m: Table) {
    && ("tcp" in t ==> GivenPort(m.tcpPort))
    && ("udp" in t || "quic" in t ==> GivenPort(m.udpPort))
    && PortInRange(m.tcpPort) && PortInRange(m.udpPort)
  }

  predicate HealthFits(health: string) {
    && 5 <= |health| <= 256 && health[..5] == "GET /"
    && (forall i :: 0 <= i < |health| ==> health[i] !in {'\r', '\n', '\0'})
    && (forall i :: 4 <= i < |health| ==> health[i] != ' ')
  }

  predicate DocrootFits(docroot: string) {
    docroot == "$DOCROOT"
    || ((docroot == "" || docroot[0] != '/') && !HasDots(docroot) && '\0' !in docroot)
  }

  function VersionsOf(v: set<string>, order: seq<Rung>): seq<Rung> {
    if order == [] then []
    else (if Version(order[0]) in v then [order[0]] else []) + VersionsOf(v, order[1..])
  }

  function OrDefault<T>(a: Option<T>, d: T): T {
    if a.Some? then a.value else d
  }

  /** The normalised manifest, or None where the file is rejected. */
  function Validate(top: Table, service: Option<Table>): Option<Manifest> {
    var s := OrDefault(service, EMPTY);
    var m := Merge(top, s);
    var t, v, caps := Elements(m.transports), Elements(m.versions), Elements(m.caps);
    var name := if Given(s.name) then s.name else top.name;
    var health := OrDefault(m.health, "GET /health");
    var docroot := OrDefault(m.docroot, "$DOCROOT");
    if !TransportsFit(t, v) || !PortsFit(t, m) then None
    else if !Given(m.build) || !RelativePath(m.build.value) then None
    else if !Given(m.run) || !RelativePath(m.run.value) then None
    else if !(caps <= KNOWN_CAPS) || !HealthFits(health) || !DocrootFits(docroot) then None
    else if name.None? || |name.value| > 64 then None
    else Some(Manifest(name.value, t, VersionsOf(v, HTTP_ORDER), m.build.value, m.run.value,
                       OrDefault(m.tcpPort, 0), OrDefault(m.udpPort, 0), docroot, caps, health, health[4..]))
  }

  method Protocols(m: Manifest) returns (out: seq<Rung>)
    ensures out == Rungs(m)
  {
    out := [];
    if "udp" in m.transports {
      out := out + [Udp];
    }
    out := out + m.versions;
  }

  /** The scored rungs of a manifest. */
  function Rungs(m: Manifest): seq<Rung> {
    (if "udp" in m.transports then [Udp] else []) + m.versions
  }

  function Place(r: Rung): nat {
    match r case Udp => 0 case Http09 => 1 case Http10 => 2 case Http11 => 3 case Http2 => 4 case Http3 => 5
  }

  predicate Climbing(rungs: seq<Rung>) {
    forall i, j :: 0 <= i < j < |rungs| ==> Place(rungs[i]) < Place(rungs[j])
  }

  /** The port a rung is probed on. */
  function PortOf(m: Manifest, r: Rung): int {
    if r.Udp? || r.Http3? then m.udpPort else m.tcpPort
  }

  function TransportOf(r: Rung): string {
    match r case Udp => "udp" case Http3 => "quic" case _ => "tcp"
  }

  /** What the tick loop and the submission check rely on. */
  predicate Probeable(m: Manifest) {
    && Climbing(Rungs(m))
    && forall r :: r in Rungs(m) ==> 1 <= PortOf(m, r) <= 65535 && TransportOf(r) in m.transports
  }

  lemma {:induction false} VersionsOfOrder(v: set<string>, order: seq<Rung>)
    requires Climbing(order)
    ensures Climbing(VersionsOf(v, order))
    ensures forall r :: r in VersionsOf(v, order) <==> r in order && Version(r) in v
    decreases |order|
  {
    if order != [] {
      var rest := VersionsOf(v, order[1..]);
      VersionsOfOrder(v, order[1..]);
      forall r | r in rest ensures Place(order[0]) < Place(r) {
        assert r in order[1..];
      }
      assert order == [order[0]] + order[1..];
    }
  }

  lemma TransportDeclared(t: set<string>, v: set<string>, r: Rung)
    requires TransportsFit(t, v) && if r.Udp? then "udp" in t else Version(r) in v
    ensures TransportOf(r) in t
  {
    if !r.Udp? && !r.Http3? {
      assert Version(r) in v * TCP_VERSIONS;
    }
  }

  lemma PortDeclared(t: set<string>, m: Table, r: Rung)
    requires PortsFit(t, m) && TransportOf(r) in t
    ensures if r.Udp? || r.Http3? then m.udpPort.Some? && 1 <= m.udpPort.value <= 65535
            else m.tcpPort.Some? && 1 <= m.tcpPort.value <= 65535
  {
  }

  predicate Declared(r: Rung, transports: set<string>, versions: set<string>) {
    if r.Udp? then "udp" in transports else Version(r) in versions
  }

  /**
   * A validated manifest can be probed: its rungs are distinct and in ladder order, each has a
   * port in range and the transport it needs, and they are exactly the declared ones.
   */
  lemma ValidatedIsProbeable(top: Table, service: Option<Table>)
    requires Validate(top, service).Some?
    ensures var m := Validate(top, service).value;
            var merged := Merge(top, OrDefault(service, EMPTY));
            && Probeable(m)
            && forall r :: r in Rungs(m) <==> Declared(r, Elements(merged.transports), Elements(merged.versions))
  {
    hide HealthFits, DocrootFits, RelativePath, TransportsFit, PortsFit, Version, VersionsOf, TransportOf, Elements;
    var m := Validate(top, service).value;
    var merged := Merge(top, OrDefault(service, EMPTY));
    var t, v := Elements(merged.transports), Elements(merged.versions);
    RungsDeclared(m, t, v);
    forall r | r in Rungs(m)
      ensures 1 <= PortOf(m, r) <= 65535 && TransportOf(r) in m.transports
    {
      TransportDeclared(t, v, r);
      PortDeclared(t, merged, r);
    }
  }

  lemma RungsDeclared(m: Manifest, t: set<string>, v: set<string>)
    requires m.transports == t && m.versions == VersionsOf(v, HTTP_ORDER)
    ensures forall r :: r in Rungs(m) <==> Declared(r, t, v)
    ensures Climbing(Rungs(m))
  {
    hide Version, VersionsOf;
    VersionsOfOrder(v, HTTP_ORDER);
    forall r: Rung
      ensures r in HTTP_ORDER <==> !r.Udp?
    {
      assert HTTP_ORDER[0] == Http09 && HTTP_ORDER[1] == Http10 && HTTP_ORDER[2] == Http11
          && HTTP_ORDER[3] == Http2 && HTTP_ORDER[4] == Http3;
    }
  }

  // ----- which files are accepted, rule by rule -----------------------------------------------

  /** The set of a list of words; a missing list has none. */
  function Words(s: Option<seq<string>>): set<string> {
    match s case None => {} case Some(words) => set i | 0 <= i < |words| :: words[i]
  }

  predicate Port(p: Option<int>, needed: bool) {
    match p case None => !needed case Some(n) => 0 < n < 65536
  }

  /** A path inside the repository: not empty, not absolute, nowhere two dots in a row. */
  predicate InRepo(path: string) {
    path != "" && path[0] != '/' && forall i :: 1 <= i < |path| && path[i] == '.' ==> path[i - 1] != '.'
  }

  /** One request line: GET, a space and an absolute path without spaces, line breaks or zeros. */
  predicate RequestLine(line: string) {
    && |line| <= 256 && |line| >= 5 && line[0] == 'G' && line[1] == 'E' && line[2] == 'T' && line[3] == ' '
    && line[4] == '/'
    && forall i :: 4 <= i < |line| ==> line[i] as int !in {0, 10, 13, 32}
  }

  /** In the one table and the other: a key at the top counts before the same key under `[service]`. */
  function Either<T>(top: Option<T>, service: Option<T>): Option<T> {
    match top case Some(_) => top case None => service
  }

  /** What runs over what. */
  predicate TransportRules(t: set<string>, v: set<string>) {
    && t != {} && t <= {"tcp", "udp", "quic"} && v <= {"0.9", "1.0", "1.1", "2", "3"}
    && ("quic" in t ==> "udp" in t)
    && ("0.9" in v || "1.0" in v || "1.1" in v || "2" in v ==> "tcp" in t)
    && ("3" in v ==> "quic" in t)
  }

  predicate DocrootRule(docroot: string) {
    docroot in {"", "$DOCROOT"} || (InRepo(docroot) && forall i :: 0 <= i < |docroot| ==> docroot[i] as int != 0)
  }

  /** The declared versions from the oldest on. */
  function Oldest(v: set<string>): seq<Rung> {
    (if "0.9" in v then [Http09] else []) + ((if "1.0" in v then [Http10] else [])
    + ((if "1.1" in v then [Http11] else []) + ((if "2" in v then [Http2] else [])
    + (if "3" in v then [Http3] else []))))
  }

  /** The rules of the manifest, and what becomes of its keys. */
  predicate Obeys(top: Table, service: Table, m: Manifest) {
    var t, v := Words(Either(top.transports, service.transports)), Words(Either(top.versions, service.versions));
    var tcp, udp := Either(top.tcpPort, service.tcpPort), Either(top.udpPort, service.udpPort);
    var build, run := Either(top.build, service.build), Either(top.run, service.run);
    var name := if service.name.Some? && service.name.value != "" then service.name else top.name;
    var health, docroot := Either(top.health, service.health), Either(top.docroot, service.docroot);
    && TransportRules(t, v) && m.transports == t && m.versions == Oldest(v)
    && Port(tcp, "tcp" in t) && m.tcpPort == (if tcp.Some? then tcp.value else 0)
    && Port(udp, "udp" in t || "quic" in t) && m.udpPort == (if udp.Some? then udp.value else 0)
    && build == Some(m.build) && InRepo(m.build) && run == Some(m.run) && InRepo(m.run)
    && m.caps == Words(Either(top.caps, service.caps)) && m.caps <= {"NET_RAW", "NET_ADMIN", "SYS_ADMIN"}
    && m.health == (if health.Some? then health.value else "GET /health") && RequestLine(m.health)
    && m.healthPath == m.health[4..]
    && m.docroot == (if docroot.Some? then docroot.value else "$DOCROOT") && DocrootRule(m.docroot)
    && name == Some(m.name) && |m.name| <= 64
  }

  lemma SameWords(s: Option<seq<string>>)
    ensures Elements(s) == Words(s)
  {
    if s.Some? {
      forall x | x in s.value
        ensures x in Words(s)
      {
        var i :| 0 <= i < |s.value| && s.value[i] == x;
      }
    }
  }

  lemma PathIs(s: string)
    ensures RelativePath(s) <==> InRepo(s)
    ensures DocrootFits(s) <==> DocrootRule(s)
  {
    if HasDots(s) {
      var i :| 0 <= i < |s| - 1 && s[i] == '.' && s[i + 1] == '.';
      assert s[i + 1] == '.' && s[(i + 1) - 1] == '.';
    }
    if exists i :: 1 <= i < |s| && s[i] == '.' && s[i - 1] == '.' {
      var i :| 1 <= i < |s| && s[i] == '.' && s[i - 1] == '.';
      assert s[i - 1] == '.' && s[(i - 1) + 1] == '.';
    }
  }

  lemma HealthIs(s: string)
    ensures HealthFits(s) <==> RequestLine(s)
  {
    if |s| >= 5 {
      assert s[..5] == [s[0], s[1], s[2], s[3], s[4]];
      assert "GET /" == ['G', 'E', 'T', ' ', '/'];
    }
  }

  lemma VersionsStep(v: set<string>, order: seq<Rung>)
    requires order != []
    ensures VersionsOf(v, order) == (if Version(order[0]) in v then [order[0]] else []) + VersionsOf(v, order[1..])
    ensures VersionsOf(v, []) == []
  {
  }

  lemma VersionsAre(v: set<string>)
    ensures VersionsOf(v, HTTP_ORDER) == Oldest(v)
  {
    hide VersionsOf;
    var b, c, d, e := [Http10, Http11, Http2, Http3], [Http11, Http2, Http3], [Http2, Http3], [Http3];
    assert HTTP_ORDER[1..] == b && b[1..] == c && c[1..] == d && d[1..] == e && e[1..] == [];
    VersionsStep(v, HTTP_ORDER);
    VersionsStep(v, b);
    VersionsStep(v, c);
    VersionsStep(v, d);
    VersionsStep(v, e);
  }

  lemma TransportsAre(t: set<string>, v: set<string>)
    ensures TransportsFit(t, v) <==> TransportRules(t, v)
  {
    forall x | x in {"0.9", "1.0", "1.1", "2"}
      ensures x in v <==> x in v * TCP_VERSIONS
    {
    }
    if v * TCP_VERSIONS != {} {
      var x :| x in v * TCP_VERSIONS;
    }
  }

  lemma PortsAre(t: set<string>, m: Table)
    ensures PortsFit(t, m) <==> Port(m.tcpPort, "tcp" in t) && Port(m.udpPort, "udp" in t || "quic" in t)
  {
  }

  /** Exactly the files that obey the rules are accepted, and this is what is kept of them. */
  lemma ValidateExactly(top: Table, service: Option<Table>, m: Manifest)
    ensures Validate(top, service) == Some(m) <==> Obeys(top, if service.Some? then service.value else EMPTY, m)
  {
    hide Elements, Words, TransportsFit, TransportRules, PortsFit, Port, HealthFits, RequestLine, DocrootFits,
      DocrootRule, RelativePath, InRepo, VersionsOf, Oldest;
    var s := if service.Some? then service.value else EMPTY;
    var merged := Merge(top, s);
    SameWords(merged.transports);
    SameWords(merged.versions);
    SameWords(merged.caps);
    TransportsAre(Words(merged.transports), Words(merged.versions));
    VersionsAre(Words(merged.versions));
    PortsAre(Words(merged.transports), merged);
    PathIs(OrDefault(merged.build, ""));
    PathIs(OrDefault(merged.run, ""));
    HealthIs(OrDefault(merged.health, "GET /health"));
    PathIs(OrDefault(merged.docroot, "$DOCROOT"));
    EmptyPath();
  }

  lemma EmptyPath()
    ensures !InRepo("")
  {
  }
}
