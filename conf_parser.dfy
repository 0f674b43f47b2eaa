/**
 * The WireGuard `.conf` reader `parse_wg_conf`: a pass over the file's lines
 * with one flag telling whether the current section is a `[Peer]` section.
 * The `interface` and `peer` dictionaries it fills become two records whose
 * optional entries are `Option`s; the `addresses` and `dns` lists are absent
 * from the dictionary exactly when they would be empty, so an empty sequence
 * stands for an absent key.
 */
module ConfParser {
  import opened Common
  import opened Text

  datatype InterfaceConf = InterfaceConf(
    addresses: seq<string>,
    dns: seq<string>,
    privateKey: Option<string>,
    port: Option<string>,
    mtu: Option<string>)

  datatype PeerConf = PeerConf(
    pubkey: Option<string>,
    allowedIps: Option<string>,
    presharedKey: Option<string>,
    endpoint: Option<string>,
    ping: Option<string>)

  /** The loop's variables: the two dictionaries and the `in_peer` flag. */
  datatype ConfState = ConfState(iface: InterfaceConf, peer: PeerConf, inPeer: bool)

  const Initial := ConfState(InterfaceConf([], [], None, None, None), PeerConf(None, None, None, None, None), false)

  /** How one line of the file is read, in the order the parser tests it. */
  datatype LineKind =
    | Inert                              // blank, a comment, a bare `#ping`, or a line without `=`
    | PingHint(host: string)             // `#ping <host>`
    | Header(peer: bool)                 // `[Interface]` or `[Peer]`, in any letter case
    | Assign(key: Key, value: string)    // `key = value`: the key recognised, the value trimmed

  /** The first whitespace position in `s`, where `s.split(None, 1)` cuts. */
  function FirstSpace(s: string): (r: Option<nat>)
    ensures r.None? ==> forall i :: 0 <= i < |s| ==> !IsSpace(s[i])
    ensures r.Some? ==> r.value < |s| && IsSpace(s[r.value])
    ensures r.Some? ==> forall j :: 0 <= j < r.value ==> !IsSpace(s[j])
  {
    if |s| == 0 then None
    else if IsSpace(s[0]) then Some(0)
    else match FirstSpace(s[1..])
      case None => None
      case Some(k) => Some(k + 1)
  }

  function Classify(raw: string): LineKind {
    var line := Strip(raw);
    if line == "" then Inert
    else if StartsWith(Lower(line), "#ping") then
      match FirstSpace(line)
      case None => Inert
      case Some(i) => PingHint(Strip(line[i..]))
    else if line[0] == '#' then Inert
    else if Lower(line) == "[interface]" then Header(false)
    else if Lower(line) == "[peer]" then Header(true)
    else match SplitOnce(line, '=')
      case None => Inert
      case Some(kv) => Assign(KeyOf(Lower(Strip(kv.0))), Strip(kv.1))
  }

  /** The keys the parser recognises, after lower-casing. */
  datatype Key =
    | Address | Dns | PrivateKey | ListenPort | Mtu                // `[Interface]` keys
    | PublicKey | AllowedIps | PresharedKey | Endpoint             // `[Peer]` keys
    | Unknown

  /** The key a lower-cased key name stands for. */
  function KeyOf(name: string): (r: Key)
    ensures r == Address <==> name == "address"
    ensures r == Dns <==> name == "dns"
    ensures r == PrivateKey <==> name == "privatekey"
    ensures r == ListenPort <==> name == "listenport"
    ensures r == Mtu <==> name == "mtu"
    ensures r == PublicKey <==> name == "publickey"
    ensures r == AllowedIps <==> name == "allowedips"
    ensures r == PresharedKey <==> name == "presharedkey"
    ensures r == Endpoint <==> name == "endpoint"
  {
    if name == "address" then Address
    else if name == "dns" then Dns
    else if name == "privatekey" then PrivateKey
    else if name == "listenport" then ListenPort
    else if name == "mtu" then Mtu
    else if name == "publickey" then PublicKey
    else if name == "allowedips" then AllowedIps
    else if name == "presharedkey" then PresharedKey
    else if name == "endpoint" then Endpoint
    else Unknown
  }

  /** Whether a key is recorded in `[Peer]` sections (otherwise in `[Interface]`). */
  predicate IsPeerKey(key: Key) {
    key.PublicKey? || key.AllowedIps? || key.PresharedKey? || key.Endpoint?
  }

  /** The keys the parser records in the current section; every other key is ignored. */
  predicate Recorded(key: Key, inPeer: bool) {
    key != Unknown && IsPeerKey(key) == inPeer
  }

  /** The key/value branch of one iteration. */
  function Record(st: ConfState, key: Key, v: string): ConfState {
    if !Recorded(key, st.inPeer) then st
    else match key
      case PublicKey => st.(peer := st.peer.(pubkey := Some(v)))
      case AllowedIps => st.(peer := st.peer.(allowedIps := Some(v)))
      case PresharedKey => st.(peer := st.peer.(presharedKey := Some(v)))
      case Endpoint => st.(peer := st.peer.(endpoint := Some(v)))
      case Address => st.(iface := st.iface.(addresses := st.iface.addresses + [v]))
      case Dns => st.(iface := st.iface.(dns := st.iface.dns + [v]))
      case PrivateKey => st.(iface := st.iface.(privateKey := Some(v)))
      case ListenPort => st.(iface := st.iface.(port := Some(v)))
      case Mtu => st.(iface := st.iface.(mtu := Some(v)))
  }

  /** One iteration of the loop, on a line already classified. */
  function Step(st: ConfState, kind: LineKind): ConfState {
    match kind
    case Inert => st
    case PingHint(h) => st.(peer := st.peer.(ping := Some(h)))
    case Header(p) => st.(inPeer := p)
    case Assign(key, v) => Record(st, key, v)
  }

  /** The lines of a file, classified. */
  function Kinds(lines: seq<string>): (ks: seq<LineKind>)
    ensures |ks| == |lines|
    ensures forall i :: 0 <= i < |lines| ==> ks[i] == Classify(lines[i])
  {
    seq(|lines|, i requires 0 <= i < |lines| => Classify(lines[i]))
  }

  lemma KindsAppend(lines: seq<string>, line: string)
    ensures Kinds(lines + [line]) == Kinds(lines) + [Classify(line)]
  {
  }

  /** The state after the loop has consumed lines classified as `ks`. */
  function ParseKinds(ks: seq<LineKind>): ConfState
    decreases |ks|
  {
    if |ks| == 0 then Initial
    else Step(ParseKinds(ks[..|ks| - 1]), ks[|ks| - 1])
  }

  lemma ParseKindsStep(ks: seq<LineKind>, i: nat)
    requires i < |ks|
    ensures ParseKinds(ks[..i + 1]) == Step(ParseKinds(ks[..i]), ks[i])
  {
    assert ks[..i + 1][..i] == ks[..i];
  }

  function ParseLines(lines: seq<string>): ConfState {
    ParseKinds(Kinds(lines))
  }

  /** `parse_wg_conf`, over the lines of the file. */
  method ParseWgConf(lines: seq<string>) returns (iface: InterfaceConf, peer: PeerConf)
    ensures iface == ParseLines(lines).iface && peer == ParseLines(lines).peer
  {
    ghost var ks := Kinds(lines);
    ghost var st := Initial;
    var inPeer := false;
    iface, peer := Initial.iface, Initial.peer;
    var i := 0;
    while i < |lines|
      invariant 0 <= i <= |lines|
      invariant st == ParseKinds(ks[..i])
      invariant ConfState(iface, peer, inPeer) == st
    {
      ParseKindsStep(ks, i);
      var kind := Classify(lines[i]);
      iface, peer, inPeer := Apply(iface, peer, inPeer, kind);
      st := Step(st, kind);
      i := i + 1;
    }
    assert ks[..i] == ks;
  }

  /** The loop body of `parse_wg_conf` for one classified line: the fields it stores and the section it opens. */
  method Apply(iface0: InterfaceConf, peer0: PeerConf, inPeer0: bool, kind: LineKind)
    returns (iface: InterfaceConf, peer: PeerConf, inPeer: bool)
    ensures ConfState(iface, peer, inPeer) == Step(ConfState(iface0, peer0, inPeer0), kind)
  {
    iface, peer, inPeer := iface0, peer0, inPeer0;
    match kind {
      case Inert =>
      case PingHint(h) =>
        peer := peer.(ping := Some(h));
      case Header(p) =>
        inPeer := p;
      case Assign(key, v) =>
        if inPeer {
          match key {
            case PublicKey => peer := peer.(pubkey := Some(v));
            case AllowedIps => peer := peer.(allowedIps := Some(v));
            case PresharedKey => peer := peer.(presharedKey := Some(v));
            case Endpoint => peer := peer.(endpoint := Some(v));
            case _ =>
          }
        } else {
          match key {
            case Address => iface := iface.(addresses := iface.addresses + [v]);
            case Dns => iface := iface.(dns := iface.dns + [v]);
            case PrivateKey => iface := iface.(privateKey := Some(v));
            case ListenPort => iface := iface.(port := Some(v));
            case Mtu => iface := iface.(mtu := Some(v));
            case _ =>
          }
        }
    }
  }

  // ---------------------------------------------------------------------
  // A reference reading of the file, line by line and key by key.

  /** Whether the section open after `ks` is a `[Peer]` section: the last header decides. */
  function InPeerAfter(ks: seq<LineKind>): bool
    decreases |ks|
  {
    if |ks| == 0 then false
    else match ks[|ks| - 1]
      case Header(p) => p
      case _ => InPeerAfter(ks[..|ks| - 1])
  }

  /** The value line `i` gives `key`, if it assigns that key inside a section that records it. */
  function ValueAt(ks: seq<LineKind>, i: nat, key: Key): Option<string>
    requires i < |ks|
  {
    match ks[i]
    case Assign(k, v) => if k == key && Recorded(key, InPeerAfter(ks[..i])) then Some(v) else None
    case _ => None
  }

  /** Every value given to `key` where it is recorded, in file order, duplicates kept. */
  function SectionValues(ks: seq<LineKind>, key: Key): seq<string>
    decreases |ks|
  {
    if |ks| == 0 then []
    else
      var n := |ks| - 1;
      SectionValues(ks[..n], key) + (match ValueAt(ks, n, key) case Some(v) => [v] case None => [])
  }

  /** Every host named by a `#ping <host>` line, whatever section it stands in. */
  function PingValues(ks: seq<LineKind>): seq<string>
    decreases |ks|
  {
    if |ks| == 0 then []
    else
      var n := |ks| - 1;
      PingValues(ks[..n]) + (match ks[n] case PingHint(h) => [h] case _ => [])
  }

  /** The entry the parse keeps for a key recorded as a single value. */
  function Single(st: ConfState, key: Key): Option<string>
    requires key !in {Address, Dns, Unknown}
  {
    match key
    case PublicKey => st.peer.pubkey
    case AllowedIps => st.peer.allowedIps
    case PresharedKey => st.peer.presharedKey
    case Endpoint => st.peer.endpoint
    case PrivateKey => st.iface.privateKey
    case ListenPort => st.iface.port
    case Mtu => st.iface.mtu
  }

  lemma {:induction false} ParseSection(ks: seq<LineKind>)
    ensures ParseKinds(ks).inPeer == InPeerAfter(ks)
    decreases |ks|
  {
    if |ks| > 0 {
      ParseSection(ks[..|ks| - 1]);
    }
  }

  lemma {:induction false} ParseLists(ks: seq<LineKind>)
    ensures ParseKinds(ks).iface.addresses == SectionValues(ks, Address)
    ensures ParseKinds(ks).iface.dns == SectionValues(ks, Dns)
    decreases |ks|
  {
    if |ks| > 0 {
      var n := |ks| - 1;
      ParseLists(ks[..n]);
      ParseSection(ks[..n]);
    }
  }

  lemma {:induction false} ParseSingles(ks: seq<LineKind>, key: Key)
    requires key !in {Address, Dns, Unknown}
    ensures Single(ParseKinds(ks), key) == LastOf(SectionValues(ks, key))
    decreases |ks|
  {
    if |ks| > 0 {
      var n := |ks| - 1;
      ParseSingles(ks[..n], key);
      ParseSection(ks[..n]);
    }
  }

  lemma {:induction false} ParsePing(ks: seq<LineKind>)
    ensures ParseKinds(ks).peer.ping == LastOf(PingValues(ks))
    decreases |ks|
  {
    if |ks| > 0 {
      ParsePing(ks[..|ks| - 1]);
    }
  }

  // ---------------------------------------------------------------------
  // How the text of a line is read.

  /** The lines the loop skips: blank, a comment, a `#ping` without a host, or neither a header nor holding `=`. */
  predicate InertText(raw: string) {
    var line := Strip(raw);
    || line == ""
    || (StartsWith(Lower(line), "#ping") && forall i :: 0 <= i < |line| ==> !IsSpace(line[i]))
    || (line[0] == '#' && !StartsWith(Lower(line), "#ping"))
    || (line[0] != '#' && Lower(line) != "[interface]" && Lower(line) != "[peer]" && '=' !in raw)
  }

  /** Lower-casing keeps `#`, `[` and `=` and makes nothing else into them. */
  lemma LowerKeepsMarks(line: string, i: nat)
    requires i < |line|
    ensures Lower(line)[i] == '#' <==> line[i] == '#'
    ensures Lower(line)[i] == '[' <==> line[i] == '['
    ensures Lower(line)[i] == '=' <==> line[i] == '='
  {
  }

  /** A line changes nothing exactly when it is blank, a comment, a bare `#ping`, or holds no `=` outside a header. */
  lemma ClassifyInert(raw: string)
    ensures Classify(raw) == Inert <==> InertText(raw)
  {
    var line := Strip(raw);
    NonSpaceInStrip(raw, '=');
    if line != "" {
      LowerKeepsMarks(line, 0);
      assert StartsWith(Lower(line), "#ping") ==> Lower(line)[0] == '#';
      assert Lower(line) == "[interface]" ==> Lower(line)[0] == '[';
      assert Lower(line) == "[peer]" ==> Lower(line)[0] == '[';
    }
  }

  /** Stripping `k=v` with `=` not in `k` keeps that `=` and trims only the outer ends of `k` and `v`. */
  lemma StripAroundSign(k: string, v: string) returns (a: string, b: string)
    requires '=' !in k
    ensures Strip(k + "=" + v) == a + "=" + b && '=' !in a
    ensures Strip(a) == Strip(k) && Strip(b) == Strip(v)
  {
    var raw := k + "=" + v;
    var line := Strip(raw);
    var p := StripSplit(raw);
    var q := p + |line|;
    assert raw[|k|] == '=';
    assert p <= |k| < q;
    var t := |k| - p;
    a, b := line[..t], line[t + 1..];
    assert line == raw[p..q];
    assert line == a + "=" + b by { assert line[t] == '='; }
    assert k == raw[..p] + a;
    assert v == b + raw[q..];
    StripLeftSpaces(raw[..p], a);
    StripTrailingSpaces(b, raw[q..]);
  }

  /** A line `k=v` whose key holds no `=` and which is no comment assigns the trimmed value to the trimmed key, in any letter case. */
  lemma ClassifyAssign(k: string, v: string)
    requires '=' !in k && !StartsWith(Strip(k + "=" + v), "#")
    ensures Classify(k + "=" + v) == Assign(KeyOf(Lower(Strip(k))), Strip(v))
  {
    var a, b := StripAroundSign(k, v);
    var line := a + "=" + b;
    SplitOnceAt(a, '=', b);
    LowerKeepsMarks(line, 0);
    LowerKeepsMarks(line, |a|);
    assert line[..1] == [line[0]];
    assert !StartsWith(Lower(line), "#ping") by { assert Lower(line)[0] != '#'; }
    assert line[0] != '#';
    assert Lower(line) != "[interface]" && Lower(line) != "[peer]" by {
      assert Lower(line)[|a|] == '=';
      assert '=' !in "[interface]" && '=' !in "[peer]";
    }
  }

  /** A `#ping` line, in any letter case, names the trimmed text after its first whitespace as the host. */
  lemma ClassifyPing(raw: string, i: nat)
    requires StartsWith(Lower(Strip(raw)), "#ping")
    requires i < |Strip(raw)| && IsSpace(Strip(raw)[i])
    requires forall j :: 0 <= j < i ==> !IsSpace(Strip(raw)[j])
    ensures Classify(raw) == PingHint(Strip(Strip(raw)[i..]))
  {
    var line := Strip(raw);
    var r := FirstSpace(line);
    assert r.Some?;
    assert r.value == i;
  }

  /** Section headers are recognised in any letter case, and nothing else opens a section. */
  lemma HeaderIgnoresCase(raw: string)
    ensures Classify(raw) == Header(false) <==> Lower(Strip(raw)) == "[interface]"
    ensures Classify(raw) == Header(true) <==> Lower(Strip(raw)) == "[peer]"
  {
    var line := Strip(raw);
    if Lower(line) == "[interface]" || Lower(line) == "[peer]" {
      LowerKeepsMarks(line, 0);
      assert Lower(line)[0] == '[';
      assert !StartsWith(Lower(line), "#ping");
    }
  }

  // ---------------------------------------------------------------------
  // What one more line does to the parse.

  /** Outside `[Peer]`, an `Address` or `DNS` value is appended to its list and nothing else changes. */
  lemma StepAppends(st: ConfState, key: Key, v: string)
    requires !st.inPeer && (key == Address || key == Dns)
    ensures key == Address ==> Step(st, Assign(key, v)) == st.(iface := st.iface.(addresses := st.iface.addresses + [v]))
    ensures key == Dns ==> Step(st, Assign(key, v)) == st.(iface := st.iface.(dns := st.iface.dns + [v]))
  {
  }

  lemma ParseLinesSnoc(lines: seq<string>, line: string)
    ensures ParseLines(lines + [line]) == Step(ParseLines(lines), Classify(line))
  {
    KindsAppend(lines, line);
    assert (Kinds(lines) + [Classify(line)])[..|lines|] == Kinds(lines);
  }

  /** An `Address` line outside `[Peer]` appends its trimmed value after all earlier ones, and nothing else changes. */
  lemma AddressLineAppends(lines: seq<string>, k: string, v: string)
    requires !ParseLines(lines).inPeer
    requires '=' !in k && Lower(Strip(k)) == "address" && !StartsWith(Strip(k + "=" + v), "#")
    ensures var st := ParseLines(lines);
      ParseLines(lines + [k + "=" + v]) == st.(iface := st.iface.(addresses := st.iface.addresses + [Strip(v)]))
  {
    assert Classify(k + "=" + v) == Assign(Address, Strip(v)) by {
      ClassifyAssign(k, v);
    }
    ParseLinesSnoc(lines, k + "=" + v);
    StepAppends(ParseLines(lines), Address, Strip(v));
  }

  /** Likewise a `DNS` line outside `[Peer]`. */
  lemma DnsLineAppends(lines: seq<string>, k: string, v: string)
    requires !ParseLines(lines).inPeer
    requires '=' !in k && Lower(Strip(k)) == "dns" && !StartsWith(Strip(k + "=" + v), "#")
    ensures var st := ParseLines(lines);
      ParseLines(lines + [k + "=" + v]) == st.(iface := st.iface.(dns := st.iface.dns + [Strip(v)]))
  {
    assert Classify(k + "=" + v) == Assign(Dns, Strip(v)) by {
      ClassifyAssign(k, v);
    }
    ParseLinesSnoc(lines, k + "=" + v);
    StepAppends(ParseLines(lines), Dns, Strip(v));
  }

  /** Blank lines, comments other than `#ping <host>`, and lines without `=` change nothing. */
  lemma InertLineChangesNothing(lines: seq<string>, line: string)
    requires InertText(line)
    ensures ParseLines(lines + [line]) == ParseLines(lines)
  {
    ClassifyInert(line);
    ParseLinesSnoc(lines, line);
  }

  /** A key the current section does not record leaves the whole state as it was. */
  lemma UnknownKeyIgnored(lines: seq<string>, line: string, key: Key, v: string)
    requires Classify(line) == Assign(key, v)
    requires !Recorded(key, ParseLines(lines).inPeer)
    ensures ParseLines(lines + [line]) == ParseLines(lines)
  {
    ParseLinesSnoc(lines, line);
  }

  /** A `#ping <host>` line sets the ping target to the trimmed text after its first whitespace, in either section, and touches nothing else. */
  lemma PingLineSetsTarget(lines: seq<string>, line: string, i: nat)
    requires StartsWith(Lower(Strip(line)), "#ping")
    requires i < |Strip(line)| && IsSpace(Strip(line)[i])
    requires forall j :: 0 <= j < i ==> !IsSpace(Strip(line)[j])
    ensures var st := ParseLines(lines);
      ParseLines(lines + [line]) == st.(peer := st.peer.(ping := Some(Strip(Strip(line)[i..]))))
  {
    ClassifyPing(line, i);
    ParseLinesSnoc(lines, line);
  }
}
