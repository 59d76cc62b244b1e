/**
 * The scan loop of verify over a clearsigned Release file: a state machine over the lines
 * with the sections "" (before the begin marker), "head" (the armor headers), and then
 * "content", "MD5sum", "SHA1", "SHA256" or "SHA512". Content lines are fed to the digest the
 * "Hash:" header selects, joined by CRLF; indented "hash size path" rows fill a table; the
 * first other "-----" line starts the capture of the signature block, which runs to the end.
 */
module Clearsign {
  import opened Wrappers
  import opened GoStrings
  import opened Crypto

  const BeginMarker: string := "-----BEGIN PGP SIGNED MESSAGE-----"

  /** The loop's variables: `section`, `hash`, `first_line`, `file_hashes`, and the captured
      signature text once the capture has started. */
  datatype ScanState = ScanState(
    section: string,
    hash: Option<HashState>,
    firstLine: bool,
    table: map<string, map<string, string>>,
    block: Option<string>)

  function ScanInit(): ScanState {
    ScanState("", None, true, map[], None)
  }

  /** The name of each digest in a "Hash:" header. */
  function AlgoName(a: HashAlgo): string {
    match a
    case SHA1 => "SHA1"
    case SHA256 => "SHA256"
    case SHA512 => "SHA512"
  }

  /** `switch kind`: a known name starts a fresh digest, any other leaves `hash` as it was. */
  function SelectHash(kind: string, h: Option<HashState>): Option<HashState> {
    if kind == "SHA1" then Some(HashState(SHA1, []))
    else if kind == "SHA256" then Some(HashState(SHA256, []))
    else if kind == "SHA512" then Some(HashState(SHA512, []))
    else h
  }

  /** Lines 134-143: outside the head, a line's UTF-8 bytes go to the digest, after a CRLF
      unless it is the first line ever written. */
  function Feed(st: ScanState, line: string): ScanState {
    if st.hash.Some? && st.section != "head" then
      var w := if st.firstLine then st.hash.value.written else st.hash.value.written + [CR, LF];
      st.(hash := Some(st.hash.value.(written := w + Utf8(line))), firstLine := false)
    else st
  }

  /** The section switch on an unindented line outside the head. The SHA cases keep the
      untrimmed line, less one trailing ':'. */
  function NewSection(line: string, section: string): string {
    var val := TrimSpace(line);
    if val == "MD5Sum:" then "MD5sum"
    else if val == "SHA1:" || val == "SHA256:" || val == "SHA512:" then TrimSuffix(line, ":")
    else section
  }

  /** An indented row "hash size path": records the hash under the current section and the
      size under "Size" for the path, keeping the path's other entries. */
  function AddRow(table: map<string, map<string, string>>, section: string, line: string): map<string, map<string, string>> {
    var parts := Fields(TrimSpace(line));
    if |parts| > 2 then
      var row := if parts[2] in table then table[parts[2]] else map[];
      table[parts[2] := row[section := parts[0]]["Size" := parts[1]]]
    else table
  }

  /** One iteration of the scan loop. */
  function ScanStep(st: ScanState, line: string): ScanState {
    if st.block.Some? then st.(block := Some(st.block.value + line + "\n"))
    else if HasPrefix(line, "-----") then MarkerStep(st, line)
    else LineStep(st, line)
  }

  /** A "-----" line: the begin marker enters the head, any other starts the signature block. */
  function MarkerStep(st: ScanState, line: string): ScanState {
    if line == BeginMarker then st.(section := "head") else st.(block := Some(line + "\n"))
  }

  /** Any other line: fed to the digest, then a table row, a header or a section switch. */
  function LineStep(st: ScanState, line: string): ScanState {
    var s := Feed(st, line);
    if HasPrefix(line, " ") then s.(table := AddRow(s.table, s.section, line))
    else if s.section == "head" then HeadLine(s, line)
    else s.(section := NewSection(line, s.section))
  }

  /** An unindented line in the head: "Hash: " selects the digest, the blank line ends the head. */
  function HeadLine(s: ScanState, line: string): ScanState {
    s.(hash := if HasPrefix(line, "Hash: ") then SelectHash(TrimPrefix(line, "Hash: "), s.hash) else s.hash,
       section := if line == "" then "content" else "head")
  }

  /** The state after the first `k` lines. */
  function ScanFrom(st: ScanState, lines: seq<string>, k: nat): ScanState
    requires k <= |lines|
  {
    if k == 0 then st else ScanStep(ScanFrom(st, lines, k - 1), lines[k - 1])
  }

  function ScanSpec(lines: seq<string>): ScanState {
    ScanFrom(ScanInit(), lines, |lines|)
  }

  /** The scan loop. */
  method Scan(lines: seq<string>) returns (st: ScanState)
    ensures st == ScanSpec(lines)
  {
    st := ScanInit();
    var k := 0;
    while k < |lines|
      invariant k <= |lines| && st == ScanFrom(ScanInit(), lines, k) && st.block.None?
    {
      var line := lines[k];
      if HasPrefix(line, "-----") {
        if line == BeginMarker {
          NoBlockStep(ScanInit(), lines, k + 1);
          st := st.(section := "head");
          k := k + 1;
          continue;
        }
        st := ReadSignature(lines, k, st);
        return;
      }
      NoBlockStep(ScanInit(), lines, k + 1);
      st := ScanLine(st, line);
      k := k + 1;
    }
  }

  /** The inner loop: from the first "-----" line that is not the begin marker, every remaining
      line, each followed by "\n", makes up the signature text, and the scan ends. */
  method ReadSignature(lines: seq<string>, k: nat, st: ScanState) returns (r: ScanState)
    requires k < |lines| && st == ScanFrom(ScanInit(), lines, k) && st.block.None?
    requires HasPrefix(lines[k], "-----") && lines[k] != BeginMarker
    ensures r == ScanSpec(lines)
  {
    var signature := lines[k] + "\n";
    var n := k + 1;
    while n < |lines|
      invariant k < n <= |lines| && signature == TermText(lines, k, n)
    {
      signature := signature + lines[n] + "\n";
      n := n + 1;
    }
    Captured(ScanInit(), lines, k, |lines|);
    r := st.(block := Some(signature));
  }

  /** The loop body for a line that is neither a marker nor part of the signature block. */
  method ScanLine(st: ScanState, line: string) returns (r: ScanState)
    requires st.block.None? && !HasPrefix(line, "-----")
    ensures r == ScanStep(st, line) && r.block.None?
  {
    r := WriteLine(st, line);
    if !HasPrefix(line, " ") {
      if r.section == "head" {
        r := ReadHeader(r, line);
        return;
      }
      var val := TrimSpace(line);
      if val == "MD5Sum:" {
        r := r.(section := "MD5sum");
      } else if val == "SHA1:" || val == "SHA256:" || val == "SHA512:" {
        r := r.(section := TrimSuffix(line, ":"));
      }
    } else {
      var table := InsertRow(r.table, r.section, line);
      r := r.(table := table);
    }
  }

  /** Lines 134-143 of the loop body. */
  method WriteLine(st: ScanState, line: string) returns (r: ScanState)
    ensures r == Feed(st, line)
  {
    r := st;
    if st.hash.Some? && st.section != "head" {
      var written := st.hash.value.written;
      if st.firstLine {
        r := r.(firstLine := false);
      } else {
        written := written + [CR, LF];
      }
      r := r.(hash := Some(st.hash.value.(written := written + Utf8(line))));
    }
  }

  method ReadHeader(s: ScanState, line: string) returns (r: ScanState)
    ensures r == HeadLine(s, line)
  {
    var hash := s.hash;
    if HasPrefix(line, "Hash: ") {
      var kind := TrimPrefix(line, "Hash: ");
      if kind == "SHA1" {
        hash := Some(HashState(SHA1, []));
      } else if kind == "SHA256" {
        hash := Some(HashState(SHA256, []));
      } else if kind == "SHA512" {
        hash := Some(HashState(SHA512, []));
      }
    }
    r := s.(hash := hash);
    if line == "" {
      r := r.(section := "content");
    } else {
      r := r.(section := "head");
    }
  }

  method InsertRow(table: map<string, map<string, string>>, section: string, line: string)
    returns (t: map<string, map<string, string>>)
    ensures t == AddRow(table, section, line)
  {
    t := table;
    var parts := Fields(TrimSpace(line));
    if |parts| > 2 {
      if parts[2] !in t {
        t := t[parts[2] := map[]];
      }
      t := t[parts[2] := t[parts[2]][section := parts[0]]];
      t := t[parts[2] := t[parts[2]]["Size" := parts[1]]];
    }
  }

  // ---- the text fed to the digest ----

  /** The lines `lines[i..j]` joined by CRLF: nothing before the first, nothing after the last. */
  function CrlfText(lines: seq<string>, i: nat, j: nat): string
    requires i <= j <= |lines|
    decreases j
  {
    if j == i then "" else if j == i + 1 then lines[i] else CrlfText(lines, i, j - 1) + "\r\n" + lines[j - 1]
  }

  /** The same join, defined from the front. */
  function CrlfJoin(ls: seq<string>): string {
    if ls == [] then "" else if |ls| == 1 then ls[0] else ls[0] + "\r\n" + CrlfJoin(ls[1..])
  }

  lemma {:induction false} CrlfJoinSnoc(ls: seq<string>, l: string)
    requires ls != []
    ensures CrlfJoin(ls + [l]) == CrlfJoin(ls) + "\r\n" + l
  {
    if |ls| == 1 {
      assert ls + [l] == [ls[0], l];
      assert [ls[0], l][1..] == [l];
    } else {
      assert (ls + [l])[1..] == ls[1..] + [l];
      CrlfJoinSnoc(ls[1..], l);
    }
  }

  lemma {:induction false} CrlfTextJoin(lines: seq<string>, i: nat, j: nat)
    requires i <= j <= |lines|
    ensures CrlfText(lines, i, j) == CrlfJoin(lines[i..j])
    decreases j
  {
    if j == i + 1 {
      assert lines[i..j] == [lines[i]];
    } else if j > i + 1 {
      CrlfTextJoin(lines, i, j - 1);
      assert lines[i..j] == lines[i..j - 1] + [lines[j - 1]];
      CrlfJoinSnoc(lines[i..j - 1], lines[j - 1]);
    }
  }

  lemma CrlfUtf8(a: string, l: string)
    ensures Utf8(a + "\r\n" + l) == Utf8(a) + [CR, LF] + Utf8(l)
  {
    Utf8Append(a + "\r\n", l);
    Utf8Append(a, "\r\n");
  }

  /** No section switch leads back into the head. */
  lemma NewSectionNotHead(line: string, section: string)
    requires section != "head"
    ensures NewSection(line, section) != "head"
  {
  }

  /** Scanning content: no signature block yet, outside the head, and the digest `algo` has been
      fed exactly `text`; `first` tells whether nothing has been fed yet. */
  predicate Hashing(s: ScanState, algo: HashAlgo, text: string, first: bool) {
    s.block.None? && s.section != "head" && s.hash == Some(HashState(algo, Utf8(text))) && s.firstLine == first
  }

  /** One content line: appended after a CRLF unless it is the first. */
  lemma ContentStep(st: ScanState, line: string, algo: HashAlgo, text: string, first: bool)
    requires Hashing(st, algo, text, first) && (first ==> text == "") && !HasPrefix(line, "-----")
    ensures Hashing(ScanStep(st, line), algo, if first then line else text + "\r\n" + line, false)
  {
    NewSectionNotHead(line, st.section);
    if first {
      assert Utf8(text) + Utf8(line) == Utf8(line);
    } else {
      CrlfUtf8(text, line);
    }
  }

  /** No line of `lines[i..j]` starts with "-----". */
  predicate NoMarker(lines: seq<string>, i: nat, j: nat)
    requires i <= j <= |lines|
    decreases j
  {
    j == i || (NoMarker(lines, i, j - 1) && !HasPrefix(lines[j - 1], "-----"))
  }

  lemma ContentRunStep(st: ScanState, lines: seq<string>, i: nat, j: nat, algo: HashAlgo)
    requires i < j <= |lines| && !HasPrefix(lines[j - 1], "-----")
    requires Hashing(ScanFrom(st, lines, j - 1), algo, CrlfText(lines, i, j - 1), i == j - 1)
    ensures Hashing(ScanFrom(st, lines, j), algo, CrlfText(lines, i, j), false)
  {
    var prev := ScanFrom(st, lines, j - 1);
    var text := CrlfText(lines, i, j - 1);
    ContentStep(prev, lines[j - 1], algo, text, i == j - 1);
    assert ScanFrom(st, lines, j) == ScanStep(prev, lines[j - 1]);
    assert CrlfText(lines, i, j) == if i == j - 1 then lines[j - 1] else text + "\r\n" + lines[j - 1];
  }

  /** The digest is fed exactly the content lines before the next "-----" line, joined by CRLF,
      once a digest has been selected afresh outside the head and never written to. */
  lemma {:induction false} ContentHashed(st: ScanState, lines: seq<string>, i: nat, j: nat, algo: HashAlgo)
    requires i <= j <= |lines| && NoMarker(lines, i, j)
    requires Hashing(ScanFrom(st, lines, i), algo, "", true)
    ensures Hashing(ScanFrom(st, lines, j), algo, CrlfText(lines, i, j), i == j)
    decreases j
  {
    if j > i {
      ContentHashed(st, lines, i, j - 1, algo);
      ContentRunStep(st, lines, i, j, algo);
    }
  }

  // ---- the signature block ----

  /** The lines `lines[i..j]`, each followed by "\n". */
  function TermText(lines: seq<string>, i: nat, j: nat): string
    requires i <= j <= |lines|
    decreases j
  {
    if j == i then "" else TermText(lines, i, j - 1) + lines[j - 1] + "\n"
  }

  lemma {:induction false} TermTextJoin(lines: seq<string>, i: nat, j: nat)
    requires i <= j <= |lines|
    ensures TermText(lines, i, j) == JoinLines(lines[i..j])
    decreases j
  {
    if j > i {
      TermTextJoin(lines, i, j - 1);
      assert lines[i..j] == lines[i..j - 1] + [lines[j - 1]];
      JoinLinesSnoc(lines[i..j - 1], lines[j - 1]);
    }
  }

  /** A "-----" line other than the begin marker starts the block with itself. */
  lemma CaptureStart(st: ScanState, lines: seq<string>, i: nat)
    requires i < |lines| && ScanFrom(st, lines, i).block.None?
    requires HasPrefix(lines[i], "-----") && lines[i] != BeginMarker
    ensures ScanFrom(st, lines, i + 1) == ScanFrom(st, lines, i).(block := Some(TermText(lines, i, i + 1)))
  {
    assert TermText(lines, i, i + 1) == lines[i] + "\n";
  }

  /** A captured block takes the next line and nothing else changes. */
  lemma CaptureStep(st: ScanState, lines: seq<string>, i: nat, j: nat)
    requires i < j < |lines|
    requires ScanFrom(st, lines, j) == ScanFrom(st, lines, i).(block := Some(TermText(lines, i, j)))
    ensures ScanFrom(st, lines, j + 1) == ScanFrom(st, lines, i).(block := Some(TermText(lines, i, j + 1)))
  {
  }

  /** Once captured, every remaining line joins the block, and nothing else changes. */
  lemma {:induction false} Captured(st: ScanState, lines: seq<string>, i: nat, j: nat)
    requires i < j <= |lines| && ScanFrom(st, lines, i).block.None?
    requires HasPrefix(lines[i], "-----") && lines[i] != BeginMarker
    ensures ScanFrom(st, lines, j) == ScanFrom(st, lines, i).(block := Some(TermText(lines, i, j)))
    decreases j
  {
    if j == i + 1 {
      CaptureStart(st, lines, i);
    } else {
      Captured(st, lines, i, j - 1);
      CaptureStep(st, lines, i, j - 1);
    }
  }

  /** No "-----" line other than the begin marker occurs in `lines[0..j]`. */
  predicate NoCapture(lines: seq<string>, j: nat)
    requires j <= |lines|
  {
    j == 0 || (NoCapture(lines, j - 1) && (!HasPrefix(lines[j - 1], "-----") || lines[j - 1] == BeginMarker))
  }

  lemma NoBlockStep(st: ScanState, lines: seq<string>, j: nat)
    requires 0 < j <= |lines| && ScanFrom(st, lines, j - 1).block.None?
    requires !HasPrefix(lines[j - 1], "-----") || lines[j - 1] == BeginMarker
    ensures ScanFrom(st, lines, j).block.None?
  {
  }

  /** Without a "-----" line other than the begin marker there is no signature block. */
  lemma {:induction false} NoMarkerNoBlock(st: ScanState, lines: seq<string>, j: nat)
    requires j <= |lines| && st.block.None? && NoCapture(lines, j)
    ensures ScanFrom(st, lines, j).block.None?
    decreases j
  {
    if j > 0 {
      NoMarkerNoBlock(st, lines, j - 1);
      NoBlockStep(st, lines, j);
    }
  }

  // ---- single lines ----

  /** The begin marker switches to the head and reaches neither the digest nor the table. */
  lemma BeginStep(st: ScanState)
    requires st.block.None?
    ensures ScanStep(st, BeginMarker) == st.(section := "head")
  {
    assert HasPrefix(BeginMarker, "-----");
  }

  /** No header line reaches the digest: an unindented head line can only select a digest, and
      the blank line ends the head. */
  lemma HeadStep(st: ScanState, line: string)
    requires st.block.None? && st.section == "head" && !HasPrefix(line, "-----") && !HasPrefix(line, " ")
    ensures var r := ScanStep(st, line);
      && r.table == st.table && r.firstLine == st.firstLine && r.block.None?
      && r.hash == (if HasPrefix(line, "Hash: ") then SelectHash(TrimPrefix(line, "Hash: "), st.hash) else st.hash)
      && r.section == (if line == "" then "content" else "head")
  {
  }

  /** "Hash: <name>" starts the named digest afresh; any other name leaves the digest alone. */
  lemma SelectHashNames(kind: string, h: Option<HashState>)
    ensures forall a: HashAlgo :: kind == AlgoName(a) ==> SelectHash(kind, h) == Some(HashState(a, []))
    ensures (forall a: HashAlgo :: kind != AlgoName(a)) ==> SelectHash(kind, h) == h
  {
    if (forall a: HashAlgo :: kind != AlgoName(a)) {
      assert kind != AlgoName(SHA1) && kind != AlgoName(SHA256) && kind != AlgoName(SHA512);
    }
  }

  /** The section switch: "MD5Sum:" gives "MD5sum", "SHA1:", "SHA256:" or "SHA512:" give the
      line without its trailing colon, anything else keeps the section. */
  lemma SectionSwitch(line: string, section: string)
    ensures TrimSpace(line) == "MD5Sum:" ==> NewSection(line, section) == "MD5sum"
    ensures TrimSpace(line) in {"SHA1:", "SHA256:", "SHA512:"} ==>
      NewSection(line, section) + (if HasSuffix(line, ":") then ":" else "") == line
    ensures TrimSpace(line) !in {"MD5Sum:", "SHA1:", "SHA256:", "SHA512:"} ==> NewSection(line, section) == section
  {
  }

  /** The section name comes from the untrimmed line: a header with a trailing blank keeps it,
      so its rows are recorded under a key no sidecar has. */
  lemma SectionKeepsTrailingBlank()
    ensures NewSection("SHA256: ", "content") == "SHA256: "
  {
    assert TrimRightSpace("SHA256: ") == "SHA256:" by {
      assert "SHA256: "[..7] == "SHA256:";
    }
    assert TrimSpace("SHA256: ") == "SHA256:" by {
      assert TrimLeftSpace("SHA256: ") == "SHA256: ";
    }
    assert !HasSuffix("SHA256: ", ":") by {
      assert "SHA256: "[7..] == " ";
    }
  }

  /** A row sets the path's entry for the section and its size, and keeps everything else. */
  lemma RowMerge(table: map<string, map<string, string>>, section: string, line: string)
    requires |Fields(TrimSpace(line))| > 2
    ensures var parts := Fields(TrimSpace(line)); var t := AddRow(table, section, line);
      && t.Keys == table.Keys + {parts[2]}
      && (forall p :: p in table && p != parts[2] ==> t[p] == table[p])
      && t[parts[2]]["Size"] == parts[1]
      && (section != "Size" ==> t[parts[2]][section] == parts[0])
      && (forall k :: parts[2] in table && k in table[parts[2]] && k != section && k != "Size" ==>
            k in t[parts[2]] && t[parts[2]][k] == table[parts[2]][k])
  {
  }

  /** A line with fewer than three fields leaves the table alone. */
  lemma ShortRowIgnored(table: map<string, map<string, string>>, section: string, line: string)
    requires |Fields(TrimSpace(line))| <= 2
    ensures AddRow(table, section, line) == table
  {
  }

  // ---- a whole clearsigned document ----

  /** The armor head as gpg writes it: the begin marker, the "Hash: " header and the blank line. */
  function Head(algo: HashAlgo): seq<string> {
    [BeginMarker, "Hash: " + AlgoName(algo), ""]
  }

  lemma HashHeader(st: ScanState, algo: HashAlgo)
    requires st.block.None? && st.section == "head"
    ensures ScanStep(st, "Hash: " + AlgoName(algo)) == st.(hash := Some(HashState(algo, [])))
  {
    var line := "Hash: " + AlgoName(algo);
    assert line[..6] == "Hash: " && line[6..] == AlgoName(algo);
    assert !HasPrefix(line, "-----") by { assert line[..5][0] == 'H'; }
    assert !HasPrefix(line, " ") by { assert line[..1][0] == 'H'; }
    SelectHashNames(AlgoName(algo), st.hash);
  }

  /** After the head, the digest named by the header is selected and nothing has been fed. */
  lemma HeadScanned(algo: HashAlgo, rest: seq<string>)
    ensures Hashing(ScanFrom(ScanInit(), Head(algo) + rest, 3), algo, "", true)
  {
    var lines := Head(algo) + rest;
    assert lines[0] == BeginMarker && lines[1] == "Hash: " + AlgoName(algo) && lines[2] == "";
    BeginStep(ScanInit());
    var s1 := ScanFrom(ScanInit(), lines, 1);
    assert s1 == ScanStep(ScanFrom(ScanInit(), lines, 0), lines[0]);
    assert s1 == ScanInit().(section := "head");
    HashHeader(s1, algo);
    var s2 := ScanFrom(ScanInit(), lines, 2);
    assert s2 == s1.(hash := Some(HashState(algo, [])));
    assert ScanFrom(ScanInit(), lines, 3) == s2.(section := "content");
    assert Utf8("") == [];
  }

  lemma {:induction false} NoMarkerAll(lines: seq<string>, i: nat, j: nat)
    requires i <= j <= |lines| && forall n :: i <= n < j ==> !HasPrefix(lines[n], "-----")
    ensures NoMarker(lines, i, j)
    decreases j
  {
    if j > i {
      NoMarkerAll(lines, i, j - 1);
    }
  }

  /** A clearsigned document whose content lines do not start with "-----": the digest named by
      the header is fed exactly the content lines joined by CRLF, and the captured block is the
      signature lines, each followed by "\n". */
  lemma SignedDocument(algo: HashAlgo, content: seq<string>, sig: seq<string>)
    requires forall i :: 0 <= i < |content| ==> !HasPrefix(content[i], "-----")
    requires sig != [] && HasPrefix(sig[0], "-----") && sig[0] != BeginMarker
    ensures var s := ScanSpec(Head(algo) + content + sig);
      s.hash == Some(HashState(algo, Utf8(CrlfJoin(content)))) && s.block == Some(JoinLines(sig))
  {
    var lines := Head(algo) + content + sig;
    var m := 3 + |content|;
    SignedContent(algo, content, sig);
    assert lines[m] == sig[0];
    CapturedToEnd(ScanInit(), lines, m);
    assert lines[m..] == sig;
  }

  /** From a marker line that is not BEGIN, every remaining line goes into the block. */
  lemma CapturedToEnd(st: ScanState, lines: seq<string>, m: nat)
    requires m < |lines| && ScanFrom(st, lines, m).block.None?
    requires HasPrefix(lines[m], "-----") && lines[m] != BeginMarker
    ensures ScanFrom(st, lines, |lines|) == ScanFrom(st, lines, m).(block := Some(JoinLines(lines[m..])))
  {
    Captured(st, lines, m, |lines|);
    TermTextJoin(lines, m, |lines|);
    assert lines[m..|lines|] == lines[m..];
  }

  /** After the header and the content lines, the digest holds the content joined by CRLF. */
  lemma SignedContent(algo: HashAlgo, content: seq<string>, sig: seq<string>)
    requires forall i :: 0 <= i < |content| ==> !HasPrefix(content[i], "-----")
    ensures Hashing(ScanFrom(ScanInit(), Head(algo) + content + sig, 3 + |content|),
                    algo, CrlfJoin(content), content == [])
  {
    var lines := Head(algo) + content + sig;
    var m := 3 + |content|;
    assert Head(algo) + content + sig == Head(algo) + (content + sig);
    HeadScanned(algo, content + sig);
    assert forall n :: 3 <= n < m ==> lines[n] == content[n - 3];
    NoMarkerAll(lines, 3, m);
    ContentHashed(ScanInit(), lines, 3, m, algo);
    CrlfTextJoin(lines, 3, m);
    assert lines[3..m] == content;
  }
}
