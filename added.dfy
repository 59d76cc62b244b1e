/**
 * added: the index diff. A first pass over an index stores, for every stanza with a file name,
 * the record "size|md5|sha1|sha256|sha512" under that name; a second pass reports each stanza
 * whose file name is not in that map or whose record differs. Both passes keep the six stanza
 * variables (file name, size and the four digests) and reset them after every blank line.
 * As written, both passes read the old index; the new one is never opened.
 */
module Added {
  import opened Wrappers
  import opened GoStrings

  /** The six stanza variables. */
  datatype Stanza = Stanza(filename: string, size: string, md5: string, sha1: string, sha256: string, sha512: string)

  const NoStanza := Stanza("", "", "", "", "", "")

  /** The record stored for a stanza: `fmt.Sprintf("%s|%s|%s|%s|%s", ...)`. */
  function Encode(s: Stanza): string {
    s.size + "|" + s.md5 + "|" + s.sha1 + "|" + s.sha256 + "|" + s.sha512
  }

  /** A line with a non-empty key: the key's variable takes the value; other keys are ignored. */
  function Fill(s: Stanza, f: Field): Stanza {
    match f.key
    case "Filename" => s.(filename := f.value)
    case "Size" => s.(size := f.value)
    case "MD5sum" => s.(md5 := f.value)
    case "SHA1" => s.(sha1 := f.value)
    case "SHA256" => s.(sha256 := f.value)
    case "SHA512" => s.(sha512 := f.value)
    case _ => s
  }

  /** What one line does to the stanza variables, in both passes: a blank line (empty key)
      resets them, any other line fills them. */
  function NextStanza(s: Stanza, f: Field): Stanza {
    if f.key == "" then NoStanza else Fill(s, f)
  }

  /** Whether the line ends a stanza that has a file name: the one case where the first pass
      stores and the second pass compares. */
  predicate Ends(s: Stanza, f: Field) {
    f.key == "" && s.filename != ""
  }

  /** The map lacks the stanza's file name or holds a different record for it. */
  predicate Changed(list: map<string, string>, s: Stanza) {
    s.filename !in list || list[s.filename] != Encode(s)
  }

  // ---- the first pass ----

  datatype ListState = ListState(stanza: Stanza, list: map<string, string>)

  /** One line of the first pass: a blank line stores the stanza's record under its file name,
      if it has one, and resets the stanza; any other line fills the stanza. */
  function ListStep(st: ListState, f: Field): ListState {
    var list := if Ends(st.stanza, f) then st.list[st.stanza.filename := Encode(st.stanza)] else st.list;
    ListState(NextStanza(st.stanza, f), list)
  }

  /** The first pass after the first `k` lines. */
  function ListAt(fs: seq<Field>, k: nat): ListState
    requires k <= |fs|
  {
    if k == 0 then ListState(NoStanza, map[]) else ListStep(ListAt(fs, k - 1), fs[k - 1])
  }

  /** `file_list` after the first pass. */
  function FileList(lines: seq<string>): map<string, string> {
    ListAt(Parsed(lines), |lines|).list
  }

  method BuildFileList(lines: seq<string>) returns (fileList: map<string, string>)
    ensures fileList == FileList(lines)
  {
    fileList := map[];
    var cur := NoStanza;
    var k := 0;
    while k < |lines|
      invariant k <= |lines| && ListAt(Parsed(lines), k) == ListState(cur, fileList)
    {
      cur, fileList := ListLine(cur, fileList, lines[k]);
      k := k + 1;
    }
  }

  /** The body of the first pass's loop. */
  method ListLine(cur0: Stanza, fileList0: map<string, string>, line: string) returns (cur: Stanza, fileList: map<string, string>)
    ensures ListState(cur, fileList) == ListStep(ListState(cur0, fileList0), ParseField(line))
  {
    cur, fileList := cur0, fileList0;
    var parts := SplitColonSpace(line);
    var val := "";
    if |parts| == 2 {
      val := TrimSpace(parts[1]);
    }
    if parts[0] == "" {
      if cur.filename != "" {
        fileList := fileList[cur.filename := Encode(cur)];
      }
      cur := NoStanza;
    } else {
      cur := FillVar(cur, parts[0], val);
    }
  }

  /** The `switch parts[0]` of both passes, for a non-empty key. */
  method FillVar(s: Stanza, key: string, val: string) returns (r: Stanza)
    ensures r == Fill(s, Field(key, val))
  {
    r := s;
    if key == "Filename" {
      r := r.(filename := val);
    } else if key == "Size" {
      r := r.(size := val);
    } else if key == "MD5sum" {
      r := r.(md5 := val);
    } else if key == "SHA1" {
      r := r.(sha1 := val);
    } else if key == "SHA256" {
      r := r.(sha256 := val);
    } else if key == "SHA512" {
      r := r.(sha512 := val);
    }
  }

  // ---- the second pass ----

  datatype DiffState = DiffState(stanza: Stanza, reported: seq<string>)

  /** One line of the second pass: a blank line reports the stanza's file name, if it has one
      that the map lacks or holds a different record for, and resets the stanza; any other line
      fills the stanza. The map is only read. */
  function DiffStep(list: map<string, string>, st: DiffState, f: Field): DiffState {
    var report := Ends(st.stanza, f) && Changed(list, st.stanza);
    DiffState(NextStanza(st.stanza, f), if report then st.reported + [st.stanza.filename] else st.reported)
  }

  /** The second pass after the first `k` lines. */
  function DiffAt(list: map<string, string>, fs: seq<Field>, k: nat): DiffState
    requires k <= |fs|
  {
    if k == 0 then DiffState(NoStanza, []) else DiffStep(list, DiffAt(list, fs, k - 1), fs[k - 1])
  }

  /** The file names the second pass reports, in order. */
  function Diff(list: map<string, string>, lines: seq<string>): seq<string> {
    DiffAt(list, Parsed(lines), |lines|).reported
  }

  method ReportChanges(fileList: map<string, string>, lines: seq<string>) returns (reported: seq<string>)
    ensures reported == Diff(fileList, lines)
  {
    reported := [];
    var cur := NoStanza;
    var k := 0;
    while k < |lines|
      invariant k <= |lines| && DiffAt(fileList, Parsed(lines), k) == DiffState(cur, reported)
    {
      cur, reported := DiffLine(fileList, cur, reported, lines[k]);
      k := k + 1;
    }
  }

  /** The body of the second pass's loop. */
  method DiffLine(fileList: map<string, string>, cur0: Stanza, reported0: seq<string>, line: string)
    returns (cur: Stanza, reported: seq<string>)
    ensures DiffState(cur, reported) == DiffStep(fileList, DiffState(cur0, reported0), ParseField(line))
  {
    cur, reported := cur0, reported0;
    var parts := SplitColonSpace(line);
    var val := "";
    if |parts| == 2 {
      val := TrimSpace(parts[1]);
    }
    if parts[0] == "" {
      if cur.filename != "" {
        if cur.filename !in fileList || fileList[cur.filename] != Encode(cur) {
          reported := reported + [cur.filename];
        }
      }
      cur := NoStanza;
    } else {
      cur := FillVar(cur, parts[0], val);
    }
  }

  // ---- the whole function ----

  /** added as written. `oldIndex` and `newIndex` are the lines of the two indexes, `None` when
      one cannot be opened or decompressed (the pass then logs and gives up). Both passes read
      `oldIndex`. */
  function AddedSpec(oldIndex: Option<seq<string>>, newIndex: Option<seq<string>>): seq<string> {
    match oldIndex
    case None => []
    case Some(lines) => Diff(FileList(lines), lines)
  }

  method AddedAsWritten(oldIndex: Option<seq<string>>, newIndex: Option<seq<string>>) returns (reported: seq<string>)
    ensures reported == AddedSpec(oldIndex, newIndex)
  {
    var fileList: map<string, string> := map[];
    if oldIndex.Some? {
      fileList := BuildFileList(oldIndex.value);
    }
    reported := [];
    if oldIndex.Some? {
      reported := ReportChanges(fileList, oldIndex.value);
    }
  }

  /** added with the second pass reading the new index. */
  function AddedFixedSpec(oldIndex: Option<seq<string>>, newIndex: Option<seq<string>>): seq<string> {
    var list := if oldIndex.Some? then FileList(oldIndex.value) else map[];
    match newIndex
    case None => []
    case Some(lines) => Diff(list, lines)
  }

  method AddedFixed(oldIndex: Option<seq<string>>, newIndex: Option<seq<string>>) returns (reported: seq<string>)
    ensures reported == AddedFixedSpec(oldIndex, newIndex)
  {
    var fileList: map<string, string> := map[];
    if oldIndex.Some? {
      fileList := BuildFileList(oldIndex.value);
    }
    reported := [];
    if newIndex.Some? {
      reported := ReportChanges(fileList, newIndex.value);
    }
  }

  // ---- where an index's stanzas end ----

  /** The stanza variables after the first `k` lines. */
  function StanzaAt(fs: seq<Field>, k: nat): Stanza
    requires k <= |fs|
  {
    if k == 0 then NoStanza else NextStanza(StanzaAt(fs, k - 1), fs[k - 1])
  }

  /** Line `k` ends a stanza that has a file name. */
  predicate EndsAt(fs: seq<Field>, k: nat) {
    k < |fs| && Ends(StanzaAt(fs, k), fs[k])
  }

  /** The file name of the stanza that line `k` ends. */
  function NameAt(fs: seq<Field>, k: nat): string
    requires k <= |fs|
  {
    StanzaAt(fs, k).filename
  }

  /** Both passes keep the stanza variables alike. */
  lemma {:induction false} ListAtStanza(fs: seq<Field>, k: nat)
    requires k <= |fs|
    ensures ListAt(fs, k).stanza == StanzaAt(fs, k)
  {
    if k > 0 {
      ListAtStanza(fs, k - 1);
    }
  }

  lemma {:induction false} DiffAtStanza(list: map<string, string>, fs: seq<Field>, k: nat)
    requires k <= |fs|
    ensures DiffAt(list, fs, k).stanza == StanzaAt(fs, k)
  {
    if k > 0 {
      DiffAtStanza(list, fs, k - 1);
    }
  }

  lemma ListAtStep(fs: seq<Field>, n: nat)
    requires 0 < n <= |fs|
    ensures var prev := ListAt(fs, n - 1).list;
      ListAt(fs, n).list == if EndsAt(fs, n - 1) then prev[NameAt(fs, n - 1) := Encode(StanzaAt(fs, n - 1))] else prev
  {
    ListAtStanza(fs, n - 1);
  }

  lemma DiffAtStep(list: map<string, string>, fs: seq<Field>, n: nat)
    requires 0 < n <= |fs|
    ensures var prev := DiffAt(list, fs, n - 1).reported;
      DiffAt(list, fs, n).reported ==
        if EndsAt(fs, n - 1) && Changed(list, StanzaAt(fs, n - 1)) then prev + [NameAt(fs, n - 1)] else prev
  {
    DiffAtStanza(list, fs, n - 1);
  }

  // ---- properties ----

  /** A blank line after a stanza with a file name stores that stanza's record under it,
      overwriting what an earlier stanza of that name stored, and resets the stanza. */
  lemma BlankStores(st: ListState, line: string)
    requires ParseField(line).key == "" && st.stanza.filename != ""
    ensures ListStep(st, ParseField(line)).list == st.list[st.stanza.filename := Encode(st.stanza)]
    ensures ListStep(st, ParseField(line)).stanza == NoStanza
  {
  }

  /** The stanza variables after lines `i..k`, starting from `s`. */
  function Replay(s: Stanza, fs: seq<Field>, i: nat, k: nat): Stanza
    requires i <= k <= |fs|
    decreases k
  {
    if k == i then s else NextStanza(Replay(s, fs, i, k - 1), fs[k - 1])
  }

  /** Values never leak between stanzas: after a blank line at `i`, the stanza variables depend
      only on the lines that follow it. */
  lemma {:induction false} NoLeak(fs: seq<Field>, i: nat, k: nat)
    requires i < k <= |fs| && fs[i].key == ""
    ensures StanzaAt(fs, k) == Replay(NoStanza, fs, i + 1, k)
    decreases k
  {
    if k > i + 1 {
      NoLeak(fs, i, k - 1);
    }
  }

  lemma FilenameField(v: string)
    requires ':' !in v && NoSpace(v)
    ensures ParseField("Filename: " + v) == Field("Filename", v)
  {
    SplitKeyValue("Filename", v);
    assert "Filename" + ": " + v == "Filename: " + v;
  }

  lemma ExampleFields()
    ensures ParseField("Filename: a") == Field("Filename", "a")
    ensures ParseField("Filename: b") == Field("Filename", "b")
    ensures ParseField("") == Field("", "")
  {
    FilenameField("a");
    FilenameField("b");
    assert "Filename: " + "a" == "Filename: a";
    assert "Filename: " + "b" == "Filename: b";
  }

  lemma ExampleParsed()
    ensures Parsed(["Filename: a", ""]) == [Field("Filename", "a"), Field("", "")]
    ensures Parsed(["Filename: a", "", "Filename: b", ""]) == [Field("Filename", "a"), Field("", ""), Field("Filename", "b"), Field("", "")]
  {
    ExampleFields();
    var o := ["Filename: a", ""];
    var n := ["Filename: a", "", "Filename: b", ""];
    assert o[0] == n[0] == "Filename: a" && o[1] == n[1] == n[3] == "" && n[2] == "Filename: b";
  }

  lemma ExampleRuns(list: map<string, string>)
    requires list == map["a" := Encode(NoStanza.(filename := "a"))]
    ensures var fo := [Field("Filename", "a"), Field("", "")];
      ListAt(fo, 2).list == list && DiffAt(list, fo, 2).reported == []
    ensures var fn := [Field("Filename", "a"), Field("", ""), Field("Filename", "b"), Field("", "")];
      DiffAt(list, fn, 4).reported == ["b"]
  {
    var fo := [Field("Filename", "a"), Field("", "")];
    var fn := [Field("Filename", "a"), Field("", ""), Field("Filename", "b"), Field("", "")];
    var sa := NoStanza.(filename := "a");
    var sb := NoStanza.(filename := "b");
    assert ListAt(fo, 1) == ListState(sa, map[]);
    assert DiffAt(list, fo, 1) == DiffState(sa, []);
    assert DiffAt(list, fn, 1) == DiffState(sa, []);
    assert DiffAt(list, fn, 2) == DiffState(NoStanza, []);
    assert DiffAt(list, fn, 3) == DiffState(sb, []);
  }

  /** The index pair that shows the new index is ignored: the new index adds a stanza for "b",
      which only the corrected diff reports. */
  lemma NewIndexIgnored()
    ensures var oldIndex := ["Filename: a", ""];
      var newIndex := ["Filename: a", "", "Filename: b", ""];
      AddedSpec(Some(oldIndex), Some(newIndex)) == [] && AddedFixedSpec(Some(oldIndex), Some(newIndex)) == ["b"]
  {
    ExampleParsed();
    ExampleRuns(map["a" := Encode(NoStanza.(filename := "a"))]);
  }

  /** Some stanza among the first `n` lines ends with file name `f`. */
  predicate EndsBefore(fs: seq<Field>, n: nat, f: string) {
    exists k: nat :: k < n && EndsAt(fs, k) && NameAt(fs, k) == f
  }

  lemma EndsBeforeStep(fs: seq<Field>, n: nat, f: string)
    requires 0 < n <= |fs|
    ensures EndsBefore(fs, n, f) <==> EndsBefore(fs, n - 1, f) || (EndsAt(fs, n - 1) && NameAt(fs, n - 1) == f)
  {
    if EndsBefore(fs, n, f) {
      var k: nat :| k < n && EndsAt(fs, k) && NameAt(fs, k) == f;
      if k < n - 1 {
        assert EndsBefore(fs, n - 1, f);
      }
    }
    if EndsBefore(fs, n - 1, f) {
      var k: nat :| k < n - 1 && EndsAt(fs, k) && NameAt(fs, k) == f;
      assert k < n;
    }
    if EndsAt(fs, n - 1) && NameAt(fs, n - 1) == f {
      assert n - 1 < n;
    }
  }

  /** The first pass stores a file name exactly when some stanza with that name ends. */
  lemma {:induction false} StoredNames(fs: seq<Field>, n: nat, f: string)
    requires n <= |fs|
    ensures f in ListAt(fs, n).list <==> EndsBefore(fs, n, f)
  {
    if n > 0 {
      StoredNames(fs, n - 1, f);
      ListAtStep(fs, n);
      EndsBeforeStep(fs, n, f);
    }
  }

  /** The record stored under a name is that of the last stanza with that name. */
  lemma {:induction false} StoredLast(fs: seq<Field>, k: nat, n: nat)
    requires k < n <= |fs| && EndsAt(fs, k)
    requires forall j: nat :: k < j < n && EndsAt(fs, j) ==> NameAt(fs, j) != NameAt(fs, k)
    ensures NameAt(fs, k) in ListAt(fs, n).list && ListAt(fs, n).list[NameAt(fs, k)] == Encode(StanzaAt(fs, k))
    decreases n
  {
    ListAtStep(fs, n);
    if n > k + 1 {
      StoredLast(fs, k, n - 1);
      assert EndsAt(fs, n - 1) ==> NameAt(fs, n - 1) != NameAt(fs, k);
    }
  }

  /** Some stanza among the first `n` lines ends with file name `x` and a record `list` lacks. */
  predicate ChangedBefore(list: map<string, string>, fs: seq<Field>, n: nat, x: string) {
    exists k: nat :: k < n && EndsAt(fs, k) && NameAt(fs, k) == x && Changed(list, StanzaAt(fs, k))
  }

  lemma ChangedBeforeStep(list: map<string, string>, fs: seq<Field>, n: nat, x: string)
    requires 0 < n <= |fs|
    ensures ChangedBefore(list, fs, n, x) <==>
      ChangedBefore(list, fs, n - 1, x) || (EndsAt(fs, n - 1) && NameAt(fs, n - 1) == x && Changed(list, StanzaAt(fs, n - 1)))
  {
    if ChangedBefore(list, fs, n, x) {
      var k: nat :| k < n && EndsAt(fs, k) && NameAt(fs, k) == x && Changed(list, StanzaAt(fs, k));
      if k < n - 1 {
        assert ChangedBefore(list, fs, n - 1, x);
      }
    }
    if ChangedBefore(list, fs, n - 1, x) {
      var k: nat :| k < n - 1 && EndsAt(fs, k) && NameAt(fs, k) == x && Changed(list, StanzaAt(fs, k));
      assert k < n;
    }
    if EndsAt(fs, n - 1) && NameAt(fs, n - 1) == x && Changed(list, StanzaAt(fs, n - 1)) {
      assert n - 1 < n;
    }
  }

  /** The second pass reports a name exactly when a stanza with that name ends and the map lacks
      its record. */
  lemma {:induction false} DiffIff(list: map<string, string>, fs: seq<Field>, n: nat, x: string)
    requires n <= |fs|
    ensures x in DiffAt(list, fs, n).reported <==> ChangedBefore(list, fs, n, x)
  {
    if n > 0 {
      DiffIff(list, fs, n - 1, x);
      DiffAtStep(list, fs, n);
      ChangedBeforeStep(list, fs, n, x);
    }
  }

  /** No two stanzas of the index that end with a blank line share a file name. */
  predicate DistinctNames(fs: seq<Field>) {
    forall j, k :: 0 <= j < k < |fs| && EndsAt(fs, j) && EndsAt(fs, k) ==> NameAt(fs, j) != NameAt(fs, k)
  }

  /** As written: an old index without repeated file names yields no report, whatever the new
      index holds. */
  lemma AsWrittenReportsNothing(oldIndex: seq<string>, newIndex: Option<seq<string>>)
    requires DistinctNames(Parsed(oldIndex))
    ensures AddedSpec(Some(oldIndex), newIndex) == []
  {
    var fs := Parsed(oldIndex);
    var list := FileList(oldIndex);
    var r := Diff(list, oldIndex);
    if r != [] {
      var x := r[0];
      assert x in r;
      DiffIff(list, fs, |fs|, x);
      forall k: nat | k < |fs| && EndsAt(fs, k) ensures !Changed(list, StanzaAt(fs, k)) {
        StoredLast(fs, k, |fs|);
      }
      assert false;
    }
  }

  /** Corrected: a name is reported exactly when a stanza of the new index with that name ends
      and the old index stored no record, or a different one, under it. */
  lemma FixedReports(oldIndex: seq<string>, newIndex: seq<string>, x: string)
    ensures x in AddedFixedSpec(Some(oldIndex), Some(newIndex)) <==> ChangedBefore(FileList(oldIndex), Parsed(newIndex), |newIndex|, x)
  {
    DiffIff(FileList(oldIndex), Parsed(newIndex), |newIndex|, x);
  }
}
