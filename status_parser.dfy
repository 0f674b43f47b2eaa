/**
 * The reader of `wg show <iface>` output (`parse_wg_show`, whose loop is
 * repeated inside `update_detail_panel`) and the relative-time label
 * `time_ago` used for handshake ages.
 */
module StatusParser {
  import opened Common
  import opened Text

  /** What running `wg show <iface>` gave: a non-zero exit, or the lines of its output. */
  datatype ShowResult = CommandFailed | Output(lines: seq<string>)

  /** The fields the reader picks up, in the order its `elif` chain tests them. */
  datatype Field =
    | IfaceName | IfacePubkey | IfacePort
    | PeerPubkey | PeerEndpoint | PeerAllowedIps | PeerHandshake | PeerTransfer

  predicate IsIfaceField(f: Field) {
    f.IfaceName? || f.IfacePubkey? || f.IfacePort?
  }

  /** The line prefix that announces a field. */
  function Prefix(f: Field): string {
    match f
    case IfaceName => "interface:"
    case IfacePubkey => "public key:"
    case IfacePort => "listening port:"
    case PeerPubkey => "peer:"
    case PeerEndpoint => "endpoint:"
    case PeerAllowedIps => "allowed ips:"
    case PeerHandshake => "latest handshake:"
    case PeerTransfer => "transfer:"
  }

  /** The dictionary key a field is stored under. */
  function KeyName(f: Field): string {
    match f
    case IfaceName => "name"
    case IfacePubkey => "pubkey"
    case IfacePort => "port"
    case PeerPubkey => "pubkey"
    case PeerEndpoint => "endpoint"
    case PeerAllowedIps => "allowed_ips"
    case PeerHandshake => "handshake"
    case PeerTransfer => "transfer"
  }

  /** Whether a stripped line announces `f`: it starts with the field's prefix; only `interface:` is matched in any letter case. */
  predicate Announces(line: string, f: Field) {
    if f.IfaceName? then StartsWith(Lower(line), Prefix(f)) else StartsWith(line, Prefix(f))
  }

  /** The order in which the `elif` chain tests the prefixes. */
  const ChainOrder: seq<Field> :=
    [IfaceName, IfacePubkey, IfacePort, PeerPubkey, PeerEndpoint, PeerAllowedIps, PeerHandshake, PeerTransfer]

  /** The first field of `fs` that the line announces. */
  function FirstAnnounced(line: string, fs: seq<Field>): (r: Option<Field>)
    ensures r.Some? ==> r.value in fs && Announces(line, r.value)
    ensures r.None? ==> forall f :: f in fs ==> !Announces(line, f)
    decreases |fs|
  {
    if |fs| == 0 then None
    else if Announces(line, fs[0]) then Some(fs[0])
    else FirstAnnounced(line, fs[1..])
  }

  /** The `elif` chain over a stripped line: the first prefix, in the chain's order, that the line starts with. */
  function FieldOf(line: string): Option<Field> {
    FirstAnnounced(line, ChainOrder)
  }

  /** `line.split(":", 1)[1].strip()`. */
  function AfterColon(line: string): string {
    match SplitOnce(line, ':')
    case Some(parts) => Strip(parts.1)
    case None => ""
  }

  /** The two dictionaries the loop fills. */
  datatype ShowState = ShowState(iface: map<string, string>, peer: map<string, string>)

  /** One iteration of the loop, on the stripped line. */
  function ShowStep(st: ShowState, line: string): ShowState {
    match FieldOf(line)
    case None => st
    case Some(f) => Put(st, f, AfterColon(line))
  }

  /** `interface[key] = value` or `peer[key] = value`, by the dictionary the field belongs to. */
  function Put(st: ShowState, f: Field, value: string): ShowState {
    if IsIfaceField(f) then st.(iface := st.iface[KeyName(f) := value])
    else st.(peer := st.peer[KeyName(f) := value])
  }

  /** The dictionaries after the loop has consumed `lines`. */
  function ShowLines(lines: seq<string>): ShowState
    decreases |lines|
  {
    if |lines| == 0 then ShowState(map[], map[])
    else ShowStep(ShowLines(lines[..|lines| - 1]), Strip(lines[|lines| - 1]))
  }

  /** `parse_wg_show`: a failing command is "interface down" and yields two empty dictionaries. */
  method ParseWgShow(result: ShowResult) returns (iface: map<string, string>, peer: map<string, string>)
    ensures result.CommandFailed? ==> iface == map[] && peer == map[]
    ensures result.Output? ==> iface == ShowLines(result.lines).iface && peer == ShowLines(result.lines).peer
  {
    iface, peer := map[], map[];
    if result.CommandFailed? {
      return;
    }
    var lines := result.lines;
    var i := 0;
    while i < |lines|
      invariant 0 <= i <= |lines|
      invariant ShowState(iface, peer) == ShowLines(lines[..i])
    {
      assert lines[..i + 1][..i] == lines[..i];
      var line := Strip(lines[i]);
      // the `elif` chain over the line's prefixes, as FieldOf
      match FieldOf(line) {
        case None =>
        case Some(f) =>
          if IsIfaceField(f) {
            iface := iface[KeyName(f) := AfterColon(line)];
          } else {
            peer := peer[KeyName(f) := AfterColon(line)];
          }
      }
      i := i + 1;
    }
    assert lines[..i] == lines;
  }

  // ---------------------------------------------------------------------
  // A reference reading: for each field, the lines that announce it.

  /** The values of every line announcing `f`, in order: the text after the prefix, trimmed. */
  function FieldValues(lines: seq<string>, f: Field): seq<string>
    decreases |lines|
  {
    if |lines| == 0 then []
    else
      var n := |lines| - 1;
      var line := Strip(lines[n]);
      FieldValues(lines[..n], f) + (if Announces(line, f) then [Strip(line[|Prefix(f)|..])] else [])
  }

  /** What the parse stores for `f`, if anything. */
  function Stored(st: ShowState, f: Field): Option<string> {
    var m := if IsIfaceField(f) then st.iface else st.peer;
    if KeyName(f) in m then Some(m[KeyName(f)]) else None
  }

  /** A prefix whose only colon is its last character. */
  predicate ColonLast(p: string) {
    |p| > 0 && p[|p| - 1] == ':' && ':' !in p[..|p| - 1]
  }

  /** A string without upper-case ASCII letters, which `lower()` leaves alone. */
  predicate NoUpper(p: string) {
    forall j :: 0 <= j < |p| ==> !('A' <= p[j] <= 'Z')
  }

  /** Every prefix ends at its only colon. */
  lemma PrefixesColonLast(f: Field)
    ensures ColonLast(Prefix(f))
  {
  }

  /** Every prefix is lower case. */
  lemma PrefixesNoUpper(f: Field)
    ensures NoUpper(Prefix(f))
  {
  }

  /** After a prefix that ends at its only colon, `split(":", 1)[1]` is the rest of the line. */
  lemma {:induction false} AfterColonIsRest(line: string, p: string)
    requires ColonLast(p)
    requires StartsWith(Lower(line), p)
    ensures AfterColon(line) == Strip(line[|p|..])
  {
    var k := |p| - 1;
    assert LowerChar(line[k]) == ':';
    assert line[k] == ':';
    forall j | 0 <= j < k
      ensures line[j] != ':'
    {
      assert Lower(line)[j] == p[j];
      assert p[j] in p[..k];
    }
    assert ':' !in line[..k];
    var parts := SplitOnce(line, ':').value;
    assert |parts.0| == k;
    assert parts.1 == line[|p|..];
  }

  /** A line that starts with a prefix also starts with it once lower-cased, when the prefix is lower case. */
  lemma LowerKeepsPrefix(line: string, p: string)
    requires StartsWith(line, p)
    requires NoUpper(p)
    ensures StartsWith(Lower(line), p)
  {
    assert forall j :: 0 <= j < |p| ==> Lower(line)[j] == LowerChar(line[j]) == p[j];
  }

  /** A line announcing `f` begins, in lower case, with the first two letters of its prefix. */
  lemma AnnouncedHead(line: string, f: Field)
    requires Announces(line, f)
    ensures |line| >= 2 && Lower(line)[0] == Prefix(f)[0] && Lower(line)[1] == Prefix(f)[1]
  {
    var p := Prefix(f);
    if f.IfaceName? {
      assert Lower(line)[..|p|] == p;
    } else {
      assert line[..|p|] == p;
      assert line[0] == p[0] && line[1] == p[1];
    }
  }

  /** No line announces two fields: the prefixes differ in their first two letters. */
  lemma AnnouncesExclusive(line: string, f: Field, g: Field)
    requires Announces(line, f) && Announces(line, g)
    ensures f == g
  {
    AnnouncedHead(line, f);
    AnnouncedHead(line, g);
  }

  /** The `elif` chain picks exactly the field a line announces. */
  lemma FieldOfAnnounced(line: string, f: Field)
    requires Announces(line, f)
    ensures FieldOf(line) == Some(f)
  {
    assert f in ChainOrder;
    var r := FieldOf(line);
    if r.Some? {
      AnnouncesExclusive(line, r.value, f);
    }
  }

  /** The chain's field is stored, under its key, with the text after the line's first colon. */
  lemma StepStores(st: ShowState, line: string, f: Field)
    requires FieldOf(line) == Some(f)
    ensures Stored(ShowStep(st, line), f) == Some(AfterColon(line))
  {
  }

  /** A line announcing `f` sets it to the text after the prefix. */
  lemma StepAnnounced(st: ShowState, line: string, f: Field)
    requires Announces(line, f)
    ensures Stored(ShowStep(st, line), f) == Some(Strip(line[|Prefix(f)|..]))
  {
    FieldOfAnnounced(line, f);
    StepStores(st, line, f);
    PrefixesColonLast(f);
    PrefixesNoUpper(f);
    if !f.IfaceName? {
      LowerKeepsPrefix(line, Prefix(f));
    }
    AfterColonIsRest(line, Prefix(f));
  }

  /** A line not announcing `f` leaves it alone. */
  lemma StepOther(st: ShowState, line: string, f: Field)
    requires !Announces(line, f)
    ensures Stored(ShowStep(st, line), f) == Stored(st, f)
  {
    if FieldOf(line).Some? {
      PutOther(st, FieldOf(line).value, AfterColon(line), f);
    }
  }

  /** Storing one field leaves every other field as it was. */
  lemma PutOther(st: ShowState, g: Field, value: string, f: Field)
    requires g != f
    ensures Stored(Put(st, g, value), f) == Stored(st, f)
  {
    if IsIfaceField(g) == IsIfaceField(f) {
      KeysDistinct(f, g);
    }
  }

  /** Two fields stored in the same dictionary use different keys. */
  lemma KeysDistinct(f: Field, g: Field)
    requires f != g && IsIfaceField(f) == IsIfaceField(g)
    ensures KeyName(f) != KeyName(g)
  {
    assert KeyName(f)[0] != KeyName(g)[0] || |KeyName(f)| != |KeyName(g)|;
  }

  /**
   * Each field keeps the value of the LAST line announcing it (later lines
   * overwrite), and is absent exactly when no line announces it.
   */
  lemma {:induction false} ShowKeepsLast(lines: seq<string>, f: Field)
    ensures Stored(ShowLines(lines), f) == LastOf(FieldValues(lines, f))
    decreases |lines|
  {
    if |lines| > 0 {
      var n := |lines| - 1;
      ShowKeepsLast(lines[..n], f);
      var line := Strip(lines[n]);
      var before := ShowLines(lines[..n]);
      assert ShowLines(lines) == ShowStep(before, line);
      if Announces(line, f) {
        StepAnnounced(before, line, f);
        assert FieldValues(lines, f) == FieldValues(lines[..n], f) + [Strip(line[|Prefix(f)|..])];
      } else {
        StepOther(before, line, f);
        assert FieldValues(lines, f) == FieldValues(lines[..n], f);
      }
    }
  }

  /** The keys of the interface dictionary and of the peer dictionary. */
  const IfaceKeys: set<string> := {"name", "pubkey", "port"}
  const PeerKeys: set<string> := {"pubkey", "endpoint", "allowed_ips", "handshake", "transfer"}

  lemma KeyNames(f: Field)
    ensures IsIfaceField(f) ==> KeyName(f) in IfaceKeys
    ensures !IsIfaceField(f) ==> KeyName(f) in PeerKeys
  {
  }

  /** The parse stores nothing but the fields it knows. */
  lemma {:induction false} ShowKeys(lines: seq<string>)
    ensures ShowLines(lines).iface.Keys <= IfaceKeys
    ensures ShowLines(lines).peer.Keys <= PeerKeys
    decreases |lines|
  {
    if |lines| > 0 {
      var n := |lines| - 1;
      ShowKeys(lines[..n]);
      var line := Strip(lines[n]);
      match FieldOf(line)
      case None =>
      case Some(f) => KeyNames(f);
    }
  }

  // ---------------------------------------------------------------------
  // time_ago

  datatype Unit = Seconds | Minutes | Hours | Days

  function UnitSize(u: Unit): nat {
    match u
    case Seconds => 1
    case Minutes => 60
    case Hours => 3600
    case Days => 86400
  }

  function UnitChar(u: Unit): char {
    match u
    case Seconds => 's'
    case Minutes => 'm'
    case Hours => 'h'
    case Days => 'd'
  }

  /**
   * The bucket `time_ago` puts an elapsed time into, and the count of whole
   * units (truncating division) it shows.
   */
  function Bucket(elapsed: nat): (r: (nat, Unit))
    ensures r.1 == Seconds <==> elapsed < 60
    ensures r.1 == Minutes <==> 60 <= elapsed < 3600
    ensures r.1 == Hours <==> 3600 <= elapsed < 86400
    ensures r.1 == Days <==> 86400 <= elapsed
    ensures r.0 * UnitSize(r.1) <= elapsed < (r.0 + 1) * UnitSize(r.1)
    ensures r.1 != Days ==> r.0 < (if r.1 == Hours then 24 else 60)
  {
    if elapsed < 60 then (elapsed, Seconds)
    else if elapsed < 3600 then (elapsed / 60, Minutes)
    else if elapsed < 86400 then (elapsed / 3600, Hours)
    else (elapsed / 86400, Days)
  }

  /** `time_ago`, for a whole number of elapsed seconds. */
  function TimeAgo(elapsed: nat): string {
    var b := Bucket(elapsed);
    NatToString(b.0) + [UnitChar(b.1)] + " ago"
  }

  function UnitOfChar(c: char): Option<Unit> {
    if c == 's' then Some(Seconds)
    else if c == 'm' then Some(Minutes)
    else if c == 'h' then Some(Hours)
    else if c == 'd' then Some(Days)
    else None
  }

  /** Reads a label of the form `<digits><unit> ago` back into its count and unit. */
  function ReadTimeAgo(shown: string): Option<(nat, Unit)> {
    if |shown| < 6 || shown[|shown| - 4..] != " ago" then None
    else
      var digits := shown[..|shown| - 5];
      var unit := UnitOfChar(shown[|shown| - 5]);
      if unit.None? || !AllDigits(digits) then None
      else Some((DecimalValue(digits), unit.value))
  }

  /** The label names its bucket unambiguously: reading it back gives the count and unit shown. */
  lemma TimeAgoReadsBack(elapsed: nat)
    ensures ReadTimeAgo(TimeAgo(elapsed)) == Some(Bucket(elapsed))
  {
    var b := Bucket(elapsed);
    var digits := NatToString(b.0);
    var shown := TimeAgo(elapsed);
    assert shown == digits + [UnitChar(b.1)] + " ago";
    assert shown[|shown| - 4..] == " ago";
    assert shown[..|shown| - 5] == digits;
    assert shown[|shown| - 5] == UnitChar(b.1);
  }

  /** The four sample ages. */
  lemma TimeAgoExamples()
    ensures TimeAgo(59) == "59s ago"
    ensures TimeAgo(61) == "1m ago"
    ensures TimeAgo(3661) == "1h ago"
    ensures TimeAgo(90000) == "1d ago"
  {
    assert NatToString(59) == NatToString(5) + ['9'];
  }
}
