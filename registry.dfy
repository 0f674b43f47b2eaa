/**
 * The interface registry: the `wg-utun.map` file whose rows read
 * `<iface>|<path to profile .conf>`, as scanned by `get_utun_for_profile`
 * and by the first half of `tear_down_full_tunnels`; and `is_low_utun`,
 * which recognises the reserved `utun0`..`utun4` devices.
 */
module Registry {
  import opened Common
  import opened Text

  // ---------------------------------------------------------------------
  // Rows of the map file

  /** `line.strip().split("|", 1)` for a row that contains `|`; rows without one are skipped by both readers. */
  function RowFields(row: string): Option<(string, string)> {
    if '|' !in row then None else SplitOnce(Strip(row), '|')
  }

  /**
   * The split always yields two parts, because `|` is not whitespace and
   * survives the strip: the interface is the text before the first `|`.
   */
  lemma RowFieldsShape(row: string)
    ensures RowFields(row).Some? <==> '|' in row
    ensures RowFields(row).Some? ==>
      Strip(row) == RowFields(row).value.0 + "|" + RowFields(row).value.1 && '|' !in RowFields(row).value.0
  {
    if '|' in row {
      var i :| 0 <= i < |row| && row[i] == '|';
      StripKeeps(row, i);
    }
  }

  /** The row binds profile `prof`: the basename of its path is `<prof>.conf`. */
  predicate Binds(row: string, prof: string) {
    RowFields(row).Some? && Basename(RowFields(row).value.1) == prof + ".conf"
  }

  /** The interface of the first row binding `prof`. */
  function FirstMatch(rows: seq<string>, prof: string): Option<string>
    decreases |rows|
  {
    if |rows| == 0 then None
    else if Binds(rows[0], prof) then Some(RowFields(rows[0]).value.0)
    else FirstMatch(rows[1..], prof)
  }

  /** What `get_utun_for_profile` answers; `None` stands for an absent map file. */
  function UtunForProfile(mapFile: Option<seq<string>>, prof: string): Option<string> {
    match mapFile
    case None => None
    case Some(rows) => FirstMatch(rows, prof)
  }

  /** `get_utun_for_profile`: scans the rows in order and returns at the first match. */
  method GetUtunForProfile(mapFile: Option<seq<string>>, prof: string) returns (r: Option<string>)
    ensures r == UtunForProfile(mapFile, prof)
  {
    if mapFile.None? {
      return None;
    }
    var rows := mapFile.value;
    var confFilename := prof + ".conf";
    var i := 0;
    while i < |rows|
      invariant 0 <= i <= |rows|
      invariant FirstMatch(rows[i..], prof) == FirstMatch(rows, prof)
    {
      assert rows[i..][1..] == rows[i + 1..];
      var line := rows[i];
      if '|' in line {
        var parts := SplitOnce(Strip(line), '|');
        if parts.Some? && Basename(parts.value.1) == confFilename {
          return Some(parts.value.0);
        }
      }
      i := i + 1;
    }
    return None;
  }

  /** The lookup answers nothing exactly when no row binds the profile. */
  lemma {:induction false} FirstMatchAbsent(rows: seq<string>, prof: string)
    ensures FirstMatch(rows, prof).None? <==> forall k :: 0 <= k < |rows| ==> !Binds(rows[k], prof)
    decreases |rows|
  {
    if |rows| > 0 && !Binds(rows[0], prof) {
      var tail := rows[1..];
      FirstMatchAbsent(tail, prof);
      assert FirstMatch(rows, prof) == FirstMatch(tail, prof);
      assert forall k :: 0 < k < |rows| ==> rows[k] == tail[k - 1];
    }
  }

  /** An answer is the interface of a binding row with no binding row before it. */
  lemma {:induction false} FirstMatchFound(rows: seq<string>, prof: string) returns (k: nat)
    requires FirstMatch(rows, prof).Some?
    ensures k < |rows| && Binds(rows[k], prof)
    ensures FirstMatch(rows, prof).value == RowFields(rows[k]).value.0
    ensures forall j :: 0 <= j < k ==> !Binds(rows[j], prof)
    decreases |rows|
  {
    if Binds(rows[0], prof) {
      k := 0;
    } else {
      var tail := rows[1..];
      assert FirstMatch(rows, prof) == FirstMatch(tail, prof);
      var t := FirstMatchFound(tail, prof);
      k := t + 1;
      assert rows[k] == tail[t];
      assert forall j :: 0 < j < k ==> rows[j] == tail[j - 1];
    }
  }

  /** Conversely, the first binding row is the one whose interface is answered. */
  lemma {:induction false} FirstMatchIsFirst(rows: seq<string>, prof: string, k: nat)
    requires k < |rows| && Binds(rows[k], prof)
    requires forall j :: 0 <= j < k ==> !Binds(rows[j], prof)
    ensures FirstMatch(rows, prof) == Some(RowFields(rows[k]).value.0)
    decreases k
  {
    if k > 0 {
      assert !Binds(rows[0], prof);
      assert rows[1..][k - 1] == rows[k];
      forall j | 0 <= j < k - 1
        ensures !Binds(rows[1..][j], prof)
      {
        assert rows[1..][j] == rows[j + 1];
      }
      FirstMatchIsFirst(rows[1..], prof, k - 1);
    }
  }

  // ---------------------------------------------------------------------
  // is_low_utun

  /** Python's `int(s)` on a base-10 digit run: a digit at each end, single `_` separators between digits. */
  predicate DigitRun(s: string) {
    && |s| > 0
    && IsDigit(s[0])
    && IsDigit(s[|s| - 1])
    && (forall i :: 0 <= i < |s| ==> IsDigit(s[i]) || s[i] == '_')
    && (forall i :: 0 <= i < |s| - 1 ==> s[i] != '_' || s[i + 1] != '_')
  }

  /**
   * Python's `int(s)` for a string, ASCII digits only: surrounding whitespace
   * is ignored, one optional sign, then a digit run; anything else raises
   * `ValueError`, modelled as `None`.
   */
  function PyInt(s: string): Option<int> {
    var t := Strip(s);
    var signed := |t| > 0 && (t[0] == '+' || t[0] == '-');
    var body := if signed then t[1..] else t;
    if !DigitRun(body) then None
    else if signed && t[0] == '-' then Some(0 - DecimalValue(body))
    else Some(DecimalValue(body))
  }

  /** `int(str(n)) == n`. */
  lemma PyIntOfNumeral(n: nat)
    ensures PyInt(NatToString(n)) == Some(n)
  {
    var s := NatToString(n);
    StripNoSpace(s);
  }

  /** `is_low_utun`: a `utun` device numbered 0 to 4; any failure to read the number is `False`. */
  function IsLowUtun(iface: string): bool {
    if |iface| == 0 || !StartsWith(iface, "utun") then false
    else
      match PyInt(iface[4..])
      case None => false
      case Some(num) => 0 <= num <= 4
  }

  /** For a digit-only suffix, the device is reserved exactly when its number is at most 4. */
  lemma LowUtunDigits(iface: string, digits: string)
    requires iface == "utun" + digits
    requires |digits| > 0 && AllDigits(digits)
    ensures IsLowUtun(iface) <==> DecimalValue(digits) <= 4
  {
    assert iface[4..] == digits;
    StripNoSpace(digits);
  }

  /** Names not starting with `utun` are never reserved. */
  lemma LowUtunNeedsPrefix(iface: string)
    requires !StartsWith(iface, "utun")
    ensures !IsLowUtun(iface)
  {
  }

  /** A suffix holding a character that cannot occur in a number (a letter, say) is never reserved. */
  lemma LowUtunNonNumeric(iface: string, i: nat)
    requires 4 <= i < |iface|
    requires !IsSpace(iface[i]) && !IsDigit(iface[i])
    requires iface[i] !in "_+-"
    ensures !IsLowUtun(iface)
  {
    if StartsWith(iface, "utun") {
      var suffix := iface[4..];
      assert suffix[i - 4] == iface[i];
      StripKeeps(suffix, i - 4);
      var t := Strip(suffix);
      var c := iface[i];
      assert c in t;
      var signed := |t| > 0 && (t[0] == '+' || t[0] == '-');
      var body := if signed then t[1..] else t;
      if signed {
        assert t == [t[0]] + body;
        assert c != t[0];
      }
      assert c in body;
    }
  }

  /** `utun3` and `utun04` are reserved. */
  lemma LowUtunReservedExamples()
    ensures IsLowUtun("utun3") && IsLowUtun("utun04")
  {
    assert IsLowUtun("utun3") by {
      assert "utun3" == "utun" + "3";
      LowUtunDigits("utun3", "3");
    }
    assert "utun04" == "utun" + "04";
    LowUtunDigits("utun04", "04");
  }

  /** `utun5`, `utun12`, `en0` and `utunX` are not. */
  lemma LowUtunFreeExamples()
    ensures !IsLowUtun("utun5") && !IsLowUtun("utun12")
    ensures !IsLowUtun("en0") && !IsLowUtun("utunX")
  {
    LowUtunFreeNumber("utun5", "5");
    LowUtunFreeNumber("utun12", "12");
    LowUtunNeedsPrefix("en0");
    LowUtunNonNumeric("utunX", 4);
  }

  lemma LowUtunFreeNumber(iface: string, digits: string)
    requires iface == "utun" + digits && |digits| > 0 && AllDigits(digits) && DecimalValue(digits) > 4
    ensures !IsLowUtun(iface)
  {
    LowUtunDigits(iface, digits);
  }

  // ---------------------------------------------------------------------
  // The profile -> interface dictionary of tear_down_full_tunnels

  /** The root half of Python's `os.path.splitext`: the path without its extension. */
  function SplitExtRoot(p: string): string {
    var start := match LastIndex(p, '/') case None => 0 case Some(s) => s + 1;
    match LastIndex(p, '.')
    case None => p
    case Some(d) =>
      if d >= start && !AllDots(p[start..d]) then p[..d] else p
  }

  /** The string is made of dots only (the empty string included). */
  predicate AllDots(s: string) {
    |s| == 0 || (s[0] == '.' && AllDots(s[1..]))
  }

  lemma {:induction false} AllDotsChars(s: string)
    ensures AllDots(s) <==> forall i :: 0 <= i < |s| ==> s[i] == '.'
  {
    if |s| > 0 {
      AllDotsChars(s[1..]);
      assert forall i :: 1 <= i < |s| ==> s[i] == s[1..][i - 1];
    }
  }

  /**
   * The root is a prefix of the path; what it drops starts at the last dot
   * and holds no `/`, and a cut is made only after some character of the
   * final component other than a dot.
   */
  lemma SplitExtShape(p: string)
    ensures |SplitExtRoot(p)| <= |p| && SplitExtRoot(p) == p[..|SplitExtRoot(p)|]
    ensures SplitExtRoot(p) != p ==>
      var n := |SplitExtRoot(p)|;
      && p[n] == '.' && '.' !in p[n + 1..] && '/' !in p[n..]
      && exists j :: 0 <= j < n && p[j] != '.' && '/' !in p[j..n]
  {
    if SplitExtRoot(p) != p {
      var j := SplitExtNonDot(p);
    }
  }

  lemma SplitExtNonDot(p: string) returns (j: nat)
    requires SplitExtRoot(p) != p
    ensures var n := |SplitExtRoot(p)|;
      n < |p| && j < n && p[j] != '.' && '/' !in p[j..n]
  {
    var start := match LastIndex(p, '/') case None => 0 case Some(s) => s + 1;
    var d := LastIndex(p, '.').value;
    assert start <= d < |p| && !AllDots(p[start..d]) && SplitExtRoot(p) == p[..d];
    assert '/' !in p[start..];
    assert exists i :: 0 <= i < d - start && p[start..d][i] != '.' by {
      AllDotsChars(p[start..d]);
    }
    var i :| 0 <= i < d - start && p[start..d][i] != '.';
    j := start + i;
    assert p[j] != '.';
    assert p[j..d] == p[start..][i..d - start];
  }

  /** Conversely, a last dot of the final component that follows a character other than a dot is where the root ends. */
  lemma SplitExtCuts(p: string, d: nat, j: nat)
    requires j < d < |p| && p[d] == '.' && '.' !in p[d + 1..] && '/' !in p[d + 1..]
    requires p[j] != '.' && '/' !in p[j..d]
    ensures SplitExtRoot(p) == p[..d]
  {
    assert LastIndex(p, '.') == Some(d);
    var start := match LastIndex(p, '/') case None => 0 case Some(s) => s + 1;
    assert start <= j;
    AllDotsChars(p[start..d]);
    assert p[start..d][j - start] == p[j];
  }

  /** `os.path.splitext(os.path.basename(conf))[0]`: the profile name a path denotes. */
  function ProfileNameOf(conf: string): string {
    SplitExtRoot(Basename(conf))
  }

  /** A `.conf` file whose name is not hidden is named `<its profile>.conf`. */
  lemma ConfNameRoundTrip(conf: string)
    requires EndsWith(Basename(conf), ".conf")
    requires !StartsWith(Basename(conf), ".")
    ensures ProfileNameOf(conf) + ".conf" == Basename(conf)
  {
    var b := Basename(conf);
    var d := |b| - 5;
    assert b[d..] == ".conf";
    assert b[..1] != ".";
    assert b[d] == '.' && '.' !in b[d + 1..];
    assert d > 0;
    assert ProfileNameOf(conf) == b[..d];
  }

  /** A path ending in `.conf` has a basename ending in `.conf`. */
  lemma ConfBasename(conf: string)
    requires EndsWith(conf, ".conf")
    ensures EndsWith(Basename(conf), ".conf")
  {
    BasenameKeepsSuffix(conf, ".conf");
  }

  /** A profile name and the interface a map row binds it to. */
  datatype Entry = Entry(name: string, iface: string)

  /**
   * The entry `tear_down_full_tunnels` records for a row: rows with a `|`
   * whose path ends in `.conf`, named by the path's file name without extension.
   */
  function RowEntry(row: string): Option<Entry> {
    match RowFields(row)
    case None => None
    case Some(fields) =>
      if EndsWith(fields.1, ".conf") then Some(Entry(ProfileNameOf(fields.1), fields.0)) else None
  }

  /** The values `read` finds in the rows, in row order; rows it finds nothing in are skipped. */
  function Collect(rows: seq<string>, read: string -> Option<Entry>): seq<Entry>
    decreases |rows|
  {
    if |rows| == 0 then []
    else
      var n := |rows| - 1;
      Collect(rows[..n], read) + match read(rows[n]) case None => [] case Some(e) => [e]
  }

  /** The recorded entries of the rows, in file order. */
  function Entries(rows: seq<string>): seq<Entry> {
    Collect(rows, RowEntry)
  }

  /**
   * The `active_profiles` dictionary: its keys in insertion order (the order
   * Python iterates a dict) and the key -> interface mapping.
   */
  datatype Bindings = Bindings(order: seq<string>, iface: map<string, string>)

  /** `active_profiles[name] = iface`: a new key goes last, an existing key keeps its place. */
  function Bind(b: Bindings, e: Entry): Bindings {
    if e.name in b.iface then b.(iface := b.iface[e.name := e.iface])
    else Bindings(b.order + [e.name], b.iface[e.name := e.iface])
  }

  /** The dictionary after the entries have been stored one after another. */
  function BindAll(es: seq<Entry>): Bindings
    decreases |es|
  {
    if |es| == 0 then Bindings([], map[])
    else Bind(BindAll(es[..|es| - 1]), es[|es| - 1])
  }

  /** The dictionary built from the map file; an absent file leaves it empty. */
  function ActiveBindings(mapFile: Option<seq<string>>): Bindings {
    match mapFile
    case None => Bindings([], map[])
    case Some(rows) => BindAll(Entries(rows))
  }

  /** `tear_down_full_tunnels` building `active_profiles` from the map file; no file, no entries. */
  method ActiveProfiles(mapFile: Option<seq<string>>) returns (order: seq<string>, ifaces: map<string, string>)
    ensures Bindings(order, ifaces) == ActiveBindings(mapFile)
  {
    order, ifaces := [], map[];
    if mapFile.Some? {
      order, ifaces := BindRows(mapFile.value, RowEntry);
    }
  }

  /**
   * The loop that builds the dictionary: every row `read` finds an entry in
   * is stored, in row order (`RowEntry` is the `|` test, the split and the
   * `.conf` test of the loop body).
   */
  method BindRows(rows: seq<string>, read: string -> Option<Entry>) returns (order: seq<string>, ifaces: map<string, string>)
    ensures Bindings(order, ifaces) == BindAll(Collect(rows, read))
  {
    order, ifaces := [], map[];
    var i := 0;
    ghost var es: seq<Entry> := [];
    while i < |rows|
      invariant 0 <= i <= |rows|
      invariant es == Collect(rows[..i], read)
      invariant Bindings(order, ifaces) == BindAll(es)
    {
      CollectStep(rows, read, i);
      var found := read(rows[i]);
      if found.Some? {
        order, ifaces := Store(order, ifaces, found.value);
        assert (es + [found.value])[..|es|] == es;
        es := es + [found.value];
      }
      i := i + 1;
    }
    assert rows[..i] == rows;
  }

  /** `active_profiles[name] = iface`, on the dictionary's keys in order and its mapping. */
  method Store(order: seq<string>, ifaces: map<string, string>, e: Entry)
    returns (order': seq<string>, ifaces': map<string, string>)
    ensures Bindings(order', ifaces') == Bind(Bindings(order, ifaces), e)
  {
    order' := if e.name in ifaces then order else order + [e.name];
    ifaces' := ifaces[e.name := e.iface];
  }

  /** Reading one more row adds what it gives, if anything. */
  lemma CollectStep(rows: seq<string>, read: string -> Option<Entry>, i: nat)
    requires i < |rows|
    ensures Collect(rows[..i + 1], read) ==
      Collect(rows[..i], read) + match read(rows[i]) case None => [] case Some(e) => [e]
  {
    assert rows[..i + 1][..i] == rows[..i];
    assert rows[..i + 1][i] == rows[i];
  }

  /** Every collected value was read from some row. */
  lemma {:induction false} CollectedFromRow(rows: seq<string>, read: string -> Option<Entry>, i: nat) returns (k: nat)
    requires i < |Collect(rows, read)|
    ensures k < |rows| && read(rows[k]) == Some(Collect(rows, read)[i])
    decreases |rows|
  {
    var n := |rows| - 1;
    var prev := rows[..n];
    if i < |Collect(prev, read)| {
      k := CollectedFromRow(prev, read, i);
      assert rows[k] == prev[k];
    } else {
      k := n;
    }
  }

  /** Every value read from a row is collected. */
  lemma {:induction false} RowCollected(rows: seq<string>, read: string -> Option<Entry>, k: nat)
    requires k < |rows| && read(rows[k]).Some?
    ensures read(rows[k]).value in Collect(rows, read)
    decreases |rows|
  {
    var n := |rows| - 1;
    if k < n {
      var prev := rows[..n];
      assert prev[k] == rows[k];
      RowCollected(prev, read, k);
    }
  }

  /** Two rows that each give a value give both, in order. */
  lemma CollectTwo(rows: seq<string>, read: string -> Option<Entry>, e1: Entry, e2: Entry)
    requires |rows| == 2 && read(rows[0]) == Some(e1) && read(rows[1]) == Some(e2)
    ensures Collect(rows, read) == [e1, e2]
  {
    assert rows[..1][..0] == [];
    assert Collect(rows[..1], read) == [e1];
  }

  /** Every recorded entry comes from a row of the file that records it. */
  lemma EntryFromRow(rows: seq<string>, i: nat) returns (k: nat)
    requires i < |Entries(rows)|
    ensures k < |rows| && RowEntry(rows[k]) == Some(Entries(rows)[i])
  {
    k := CollectedFromRow(rows, RowEntry, i);
  }

  /** Every row that records an entry contributes it. */
  lemma RowToEntry(rows: seq<string>, k: nat)
    requires k < |rows| && RowEntry(rows[k]).Some?
    ensures RowEntry(rows[k]).value in Entries(rows)
  {
    RowCollected(rows, RowEntry, k);
  }

  /** The string holds no whitespace. */
  predicate NoSpace(s: string) {
    forall i :: 0 <= i < |s| ==> !IsSpace(s[i])
  }

  /** The file `<name>.conf` of a profile name denotes that name again. */
  lemma ConfFileName(name: string)
    requires '/' !in name && name != "" && name[0] != '.'
    ensures '/' !in name + ".conf"
    ensures SplitExtRoot(name + ".conf") == name
  {
    var file := name + ".conf";
    assert file[|name|..] == ".conf";
    forall i | 0 <= i < |file|
      ensures file[i] != '/'
    {
      if i < |name| {
        assert file[i] == name[i];
      }
    }
    assert Basename(file) == file;
    assert EndsWith(file, ".conf");
    assert file[..1] == name[..1];
    assert !StartsWith(file, ".");
    ConfNameRoundTrip(file);
    var pn := ProfileNameOf(file);
    assert |pn| == |name|;
    assert pn == (pn + ".conf")[..|name|];
  }

  /** A string that holds no whitespace is its own strip, whatever it is built from. */
  lemma NoSpaceRow(iface: string, path: string)
    requires NoSpace(iface) && NoSpace(path)
    ensures Strip(iface + "|" + path) == iface + "|" + path
  {
    var row := iface + "|" + path;
    forall i | 0 <= i < |row|
      ensures !IsSpace(row[i])
    {
      if i < |iface| {
        assert row[i] == iface[i];
      } else if i > |iface| {
        assert row[i] == path[i - |iface| - 1];
      }
    }
    StripNoSpace(row);
  }

  /** The path `<dir>/<name>` holds no whitespace when neither part does. */
  lemma NoSpacePath(dir: string, file: string)
    requires NoSpace(dir) && NoSpace(file)
    ensures NoSpace(dir + "/" + file)
  {
    var path := dir + "/" + file;
    forall i | 0 <= i < |path|
      ensures !IsSpace(path[i])
    {
      if i < |dir| {
        assert path[i] == dir[i];
      } else if i > |dir| {
        assert path[i] == file[i - |dir| - 1];
      }
    }
  }

  /**
   * A row written as `<iface>|<dir>/<name>.conf` reads back: both readers
   * take `iface` for the interface, the row binds exactly the profile
   * `name`, and the teardown records the entry `name -> iface`.
   */
  lemma RowReadsBack(iface: string, dir: string, name: string)
    requires NoSpace(iface) && NoSpace(dir) && NoSpace(name)
    requires '|' !in iface && '/' !in name && name != "" && name[0] != '.'
    ensures var path := dir + "/" + name + ".conf"; var row := iface + "|" + path;
      && RowFields(row) == Some((iface, path))
      && RowEntry(row) == Some(Entry(name, iface))
      && forall p :: Binds(row, p) <==> p == name
  {
    var file := name + ".conf";
    var path := dir + "/" + file;
    var row := iface + "|" + path;
    assert path == dir + "/" + name + ".conf";
    assert NoSpace(file) by {
      forall i | 0 <= i < |file|
        ensures !IsSpace(file[i])
      {
        if i < |name| {
          assert file[i] == name[i];
        }
      }
    }
    NoSpacePath(dir, file);
    NoSpaceRow(iface, path);
    assert row[|iface|] == '|';
    SplitOnceAt(iface, '|', path);
    assert iface + ['|'] + path == row;
    assert RowFields(row) == Some((iface, path));
    ConfFileName(name);
    BasenameAfterSlash(dir, file);
    assert EndsWith(path, ".conf") by {
      assert path[|path| - 5..] == file[|name|..];
    }
    assert ProfileNameOf(path) == name;
    forall p
      ensures Binds(row, p) <==> p == name
    {
      if p + ".conf" == file {
        assert p == (p + ".conf")[..|p|];
        assert name == file[..|name|];
      }
    }
  }

  /** The iteration order lists every key of the dictionary exactly once. */
  lemma {:induction false} BindingsWellFormed(es: seq<Entry>)
    ensures forall x :: x in BindAll(es).order <==> x in BindAll(es).iface
    ensures forall i, j :: 0 <= i < j < |BindAll(es).order| ==> BindAll(es).order[i] != BindAll(es).order[j]
    decreases |es|
  {
    if |es| > 0 {
      BindingsWellFormed(es[..|es| - 1]);
    }
  }

  /** A profile is in the dictionary exactly when some entry names it. */
  lemma {:induction false} BindingsMembers(es: seq<Entry>, name: string)
    ensures name in BindAll(es).iface <==> exists k :: 0 <= k < |es| && es[k].name == name
    decreases |es|
  {
    if |es| > 0 {
      var n := |es| - 1;
      BindingsMembers(es[..n], name);
      if exists k :: 0 <= k < |es| && es[k].name == name {
        var k :| 0 <= k < |es| && es[k].name == name;
        if k < n {
          assert es[..n][k] == es[k];
        }
      }
      if exists k :: 0 <= k < n && es[..n][k].name == name {
        var k :| 0 <= k < n && es[..n][k].name == name;
        assert es[k] == es[..n][k];
      }
    }
  }

  /** Later entries overwrite: a profile maps to the interface of the last entry naming it. */
  lemma {:induction false} BindingsLastWins(es: seq<Entry>, k: nat)
    requires k < |es|
    requires forall j :: k < j < |es| ==> es[j].name != es[k].name
    ensures es[k].name in BindAll(es).iface
    ensures BindAll(es).iface[es[k].name] == es[k].iface
    decreases |es|
  {
    var n := |es| - 1;
    if k < n {
      forall j | k < j < n
        ensures es[..n][j].name != es[..n][k].name
      {
        assert es[..n][j] == es[j];
      }
      BindingsLastWins(es[..n], k);
    }
  }

  /**
   * A name recorded from a row whose file is not hidden is a profile that
   * `get_utun_for_profile` would find on that row: both readers agree on
   * which profile a row belongs to.
   */
  lemma RecordedRowBinds(row: string, e: Entry)
    requires RowEntry(row) == Some(e)
    requires !StartsWith(Basename(RowFields(row).value.1), ".")
    ensures Binds(row, e.name)
  {
    var fields := RowFields(row).value;
    var conf := fields.1;
    assert EndsWith(conf, ".conf") && e.name == ProfileNameOf(conf);
    ConfBasename(conf);
    ConfNameRoundTrip(conf);
    assert Basename(conf) == e.name + ".conf";
  }
}
