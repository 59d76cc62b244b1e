/**
 * getSum.go: the sidecar reader. `GetSums` derives the sidecar path of a file, has the sidecar
 * written first when it does not exist yet, and reads its "Key: value" lines into a map. A
 * sidecar that cannot be opened gives a nil map, whose every lookup is "".
 */
module GetSum {
  import opened Wrappers
  import opened GoStrings
  import opened GoPath
  import opened FileSystem
  import opened Crypto
  import opened Process

  /** The map a sidecar's lines give, read top to bottom: a line holding ": " maps the text
      before its first ": " to the trimmed rest; other lines are skipped. */
  function SidecarMap(lines: seq<string>): map<string, string> {
    MapUpTo(lines, |lines|)
  }

  /** The map after the first k lines. */
  function MapUpTo(lines: seq<string>, k: nat): map<string, string>
    requires k <= |lines|
  {
    if k == 0 then map[] else SetLine(MapUpTo(lines, k - 1), lines[k - 1])
  }

  /** The effect of one sidecar line on the map. */
  function SetLine(m: map<string, string>, l: string): map<string, string> {
    if ColonSpace(l) >= 0 then m[ParseField(l).key := ParseField(l).value] else m
  }

  /** A line that sets `key` in the sidecar map. */
  predicate SetsKey(l: string, key: string) {
    ColonSpace(l) >= 0 && ParseField(l).key == key
  }

  lemma SetLineKeys(m: map<string, string>, l: string, key: string)
    ensures key in SetLine(m, l) <==> key in m || SetsKey(l, key)
    ensures !SetsKey(l, key) && key in m ==> SetLine(m, l)[key] == m[key]
    ensures SetsKey(l, key) ==> SetLine(m, l)[key] == ParseField(l).value
  {
  }

  /** The loop body of getSums is SetLine. */
  lemma SetLineParts(m: map<string, string>, l: string)
    ensures var parts := SplitColonSpace(l);
      SetLine(m, l) == if |parts| == 2 then m[parts[0] := TrimSpace(parts[1])] else m
  {
  }

  lemma {:induction false} MapUpToKeys(lines: seq<string>, k: nat, key: string)
    requires k <= |lines|
    ensures key in MapUpTo(lines, k) <==> exists i :: 0 <= i < k && SetsKey(lines[i], key)
  {
    if k > 0 {
      MapUpToKeys(lines, k - 1, key);
      SetLineKeys(MapUpTo(lines, k - 1), lines[k - 1], key);
      if key in MapUpTo(lines, k) {
        if SetsKey(lines[k - 1], key) {
          assert 0 <= k - 1 < k && SetsKey(lines[k - 1], key);
        } else {
          var i :| 0 <= i < k - 1 && SetsKey(lines[i], key);
          assert 0 <= i < k && SetsKey(lines[i], key);
        }
      }
      if exists i :: 0 <= i < k && SetsKey(lines[i], key) {
        var i :| 0 <= i < k && SetsKey(lines[i], key);
        if i < k - 1 {
          assert key in MapUpTo(lines, k - 1);
        }
      }
    }
  }

  /** A key is in the map exactly when some line sets it. */
  lemma SidecarMapKeys(lines: seq<string>, key: string)
    ensures key in SidecarMap(lines) <==> exists i :: 0 <= i < |lines| && SetsKey(lines[i], key)
  {
    MapUpToKeys(lines, |lines|, key);
  }

  lemma {:induction false} MapUpToLast(lines: seq<string>, k: nat, i: nat, key: string)
    requires i < k <= |lines| && SetsKey(lines[i], key)
    requires forall j :: i < j < k ==> !SetsKey(lines[j], key)
    ensures key in MapUpTo(lines, k) && MapUpTo(lines, k)[key] == ParseField(lines[i]).value
  {
    SetLineKeys(MapUpTo(lines, k - 1), lines[k - 1], key);
    if i < k - 1 {
      MapUpToLast(lines, k - 1, i, key);
    }
  }

  /** A repeated key keeps the value of the last line that sets it. */
  lemma SidecarMapLast(lines: seq<string>, i: nat, key: string)
    requires i < |lines| && SetsKey(lines[i], key)
    requires forall j :: i < j < |lines| ==> !SetsKey(lines[j], key)
    ensures key in SidecarMap(lines) && SidecarMap(lines)[key] == ParseField(lines[i]).value
  {
    MapUpToLast(lines, |lines|, i, key);
  }

  /** A lookup in the map getSums returns: a nil map, like a missing key, gives "". */
  function Lookup(sums: Option<map<string, string>>, key: string): (v: string)
    ensures sums.None? ==> v == ""
    ensures sums.Some? && key in sums.value ==> v == sums.value[key]
    ensures sums.Some? && key !in sums.value ==> v == ""
  {
    if sums.Some? && key in sums.value then sums.value[key] else ""
  }

  /** getSums as a function of the file system: the file system after the sidecar may have
      been written, and the map it reads (None for a sidecar that cannot be opened). */
  function GetSumsSpec(fs: Fs, dg: Digests, name: string): (r: (Fs, Option<map<string, string>>))
    ensures Exists(fs, SidecarPath(name)) ==> r.0 == fs
    ensures !Exists(fs, SidecarPath(name)) ==> r.0 == ProcessFileSpec(fs, dg, name)
    ensures Open(r.0, SidecarPath(name)).None? ==> r.1.None?
    ensures Open(r.0, SidecarPath(name)).Some? ==> r.1 == Some(SidecarMap(TextLines(Open(r.0, SidecarPath(name)).value.data)))
  {
    var sumName := SidecarPath(name);
    var fs1 := if !Exists(fs, sumName) then ProcessFileSpec(fs, dg, name) else fs;
    match Open(fs1, sumName)
    case None => (fs1, None)
    case Some(s) => (fs1, Some(SidecarMap(TextLines(s.data))))
  }

  /** getSums: the scanner loop fills the map line by line. */
  method GetSums(fs: Fs, dg: Digests, name: string) returns (r: Fs, sums: Option<map<string, string>>)
    ensures (r, sums) == GetSumsSpec(fs, dg, name)
  {
    var (dirName, fileName) := Split(name);
    var sumName := Join(dirName, SidecarName(fileName));
    assert sumName == SidecarPath(name);
    r := fs;
    if Stat(fs, sumName) == NotExist {
      r := ProcessFile(fs, dg, name);
    }
    assert r == GetSumsSpec(fs, dg, name).0;
    var sumFile := Open(r, sumName);
    if sumFile.None? {
      return r, None;
    }
    var m := ScanSums(TextLines(sumFile.value.data));
    sums := Some(m);
  }

  /** The scanner loop of getSums over the sidecar's lines. */
  method ScanSums(lines: seq<string>) returns (m: map<string, string>)
    ensures m == SidecarMap(lines)
  {
    m := map[];
    var k := 0;
    while k < |lines|
      invariant 0 <= k <= |lines|
      invariant m == MapUpTo(lines, k)
    {
      var line := lines[k];
      SetLineParts(m, line);
      var parts := SplitColonSpace(line);
      if |parts| == 2 {
        m := m[parts[0] := TrimSpace(parts[1])];
      }
      k := k + 1;
    }
  }

  // ---- the round trip with the writer ----

  /** The map a sidecar written for `data` reads back as. */
  function WrittenSums(dg: Digests, data: seq<byte>): map<string, string> {
    map["Size" := FormatUint(|data| % TwoTo64), "MD5sum" := Hex(dg.md5(data)), "SHA1" := Hex(dg.sha1(data)),
        "SHA256" := Hex(dg.sha256(data)), "SHA512" := Hex(dg.sha512(data))]
  }

  /** A key as the writer spells it. */
  predicate WriterKey(k: string) {
    k != [] && IsAscii(k) && ':' !in k && '\n' !in k
  }

  /** A value as the writer formats it: decimal or lower-case hex digits. */
  predicate WriterValue(v: string) {
    forall i :: 0 <= i < |v| ==> IsDigit(v[i]) || IsHexDigit(v[i])
  }

  lemma DigitsAscii(s: string)
    requires WriterValue(s)
    ensures IsAscii(s) && NoSpace(s) && '\n' !in s && ':' !in s
  {
    forall c | c in s ensures c != '\n' && c != ':' {
      var i :| 0 <= i < |s| && s[i] == c;
      assert IsDigit(s[i]) || IsHexDigit(s[i]);
    }
  }

  /** One sidecar line "Key: value" as the writer formats it. */
  lemma SidecarLine(key: string, value: string)
    requires WriterKey(key) && WriterValue(value)
    ensures PlainLine(key + ": " + value)
    ensures SetsKey(key + ": " + value, key) && ParseField(key + ": " + value).value == value
  {
    var l := key + ": " + value;
    DigitsAscii(value);
    SplitKeyValue(key, value);
    assert IsAscii(l) by {
      forall i | 0 <= i < |l| ensures l[i] as int < 0x80 {
        if i >= |key| + 2 {
          assert l[i] == value[i - |key| - 2];
        } else if i < |key| {
          assert l[i] == key[i];
        }
      }
    }
    assert '\n' !in l by {
      forall c | c in l ensures c != '\n' {
        var i :| 0 <= i < |l| && l[i] == c;
        if i >= |key| + 2 {
          assert l[i] == value[i - |key| - 2];
        } else if i < |key| {
          assert l[i] == key[i];
        }
      }
    }
    assert l[|l| - 1] == if value == [] then ' ' else value[|value| - 1];
    assert ColonSpace(l) == |key| && l[|key| + 2..] == value;
  }

  /** Setting a key from a sidecar line of the writer's form. */
  lemma SetSidecarLine(m: map<string, string>, key: string, value: string)
    requires WriterKey(key) && WriterValue(value)
    ensures SetLine(m, key + ": " + value) == m[key := value]
  {
    SidecarLine(key, value);
  }

  lemma MapUpToStep(lines: seq<string>, k: nat)
    requires k < |lines|
    ensures MapUpTo(lines, k + 1) == SetLine(MapUpTo(lines, k), lines[k])
  {
  }

  /** The map of five writer-form lines. */
  lemma FiveLines(k0: string, v0: string, k1: string, v1: string, k2: string, v2: string,
                  k3: string, v3: string, k4: string, v4: string)
    requires WriterKey(k0) && WriterKey(k1) && WriterKey(k2) && WriterKey(k3) && WriterKey(k4)
    requires WriterValue(v0) && WriterValue(v1) && WriterValue(v2) && WriterValue(v3) && WriterValue(v4)
    ensures SidecarMap([k0 + ": " + v0, k1 + ": " + v1, k2 + ": " + v2, k3 + ": " + v3, k4 + ": " + v4])
      == map[k0 := v0, k1 := v1, k2 := v2, k3 := v3, k4 := v4]
  {
    var ls := [k0 + ": " + v0, k1 + ": " + v1, k2 + ": " + v2, k3 + ": " + v3, k4 + ": " + v4];
    var m0: map<string, string> := map[];
    var m1 := m0[k0 := v0];
    var m2 := m1[k1 := v1];
    var m3 := m2[k2 := v2];
    var m4 := m3[k3 := v3];
    SetSidecarLine(m0, k0, v0);
    SetSidecarLine(m1, k1, v1);
    SetSidecarLine(m2, k2, v2);
    SetSidecarLine(m3, k3, v3);
    SetSidecarLine(m4, k4, v4);
    MapUpToStep(ls, 0);
    MapUpToStep(ls, 1);
    MapUpToStep(ls, 2);
    MapUpToStep(ls, 3);
    MapUpToStep(ls, 4);
  }

  lemma DecimalValueDigits(n: nat)
    ensures WriterValue(FormatUint(n))
  {
  }

  lemma HexValueDigits(b: seq<byte>)
    ensures WriterValue(Hex(b))
  {
  }

  lemma WriterKeys()
    ensures WriterKey("Size") && WriterKey("MD5sum") && WriterKey("SHA1") && WriterKey("SHA256") && WriterKey("SHA512")
  {
  }

  lemma FivePlain(l0: string, l1: string, l2: string, l3: string, l4: string)
    requires PlainLine(l0) && PlainLine(l1) && PlainLine(l2) && PlainLine(l3) && PlainLine(l4)
    ensures forall i :: 0 <= i < 5 ==> PlainLine([l0, l1, l2, l3, l4][i])
  {
    forall i | 0 <= i < 5 ensures PlainLine([l0, l1, l2, l3, l4][i]) {
      if i == 0 { } else if i == 1 { } else if i == 2 { } else if i == 3 { } else { }
    }
  }

  lemma WriterValues(dg: Digests, data: seq<byte>)
    ensures WriterValue(FormatUint(|data| % TwoTo64))
    ensures WriterValue(Hex(dg.md5(data))) && WriterValue(Hex(dg.sha1(data)))
    ensures WriterValue(Hex(dg.sha256(data))) && WriterValue(Hex(dg.sha512(data)))
  {
    DecimalValueDigits(|data| % TwoTo64);
    HexValueDigits(dg.md5(data));
    HexValueDigits(dg.sha1(data));
    HexValueDigits(dg.sha256(data));
    HexValueDigits(dg.sha512(data));
  }

  /** The lines processFile writes survive a write-then-scan round trip. */
  lemma SidecarLinesPlain(dg: Digests, data: seq<byte>)
    ensures var ls := SidecarLines(|data| % TwoTo64, dg.md5(data), dg.sha1(data), dg.sha256(data), dg.sha512(data));
      forall i :: 0 <= i < |ls| ==> PlainLine(ls[i])
  {
    WriterKeys();
    WriterValues(dg, data);
    SidecarLine("Size", FormatUint(|data| % TwoTo64));
    SidecarLine("MD5sum", Hex(dg.md5(data)));
    SidecarLine("SHA1", Hex(dg.sha1(data)));
    SidecarLine("SHA256", Hex(dg.sha256(data)));
    SidecarLine("SHA512", Hex(dg.sha512(data)));
    FivePlain(SidecarEntry("Size", FormatUint(|data| % TwoTo64)), SidecarEntry("MD5sum", Hex(dg.md5(data))),
      SidecarEntry("SHA1", Hex(dg.sha1(data))), SidecarEntry("SHA256", Hex(dg.sha256(data))),
      SidecarEntry("SHA512", Hex(dg.sha512(data))));
  }

  /** The lines processFile writes read back as the map it wrote. */
  lemma SidecarLinesMap(dg: Digests, data: seq<byte>)
    ensures SidecarMap(SidecarLines(|data| % TwoTo64, dg.md5(data), dg.sha1(data), dg.sha256(data), dg.sha512(data)))
      == WrittenSums(dg, data)
  {
    WriterKeys();
    WriterValues(dg, data);
    FiveLines("Size", FormatUint(|data| % TwoTo64), "MD5sum", Hex(dg.md5(data)), "SHA1", Hex(dg.sha1(data)),
      "SHA256", Hex(dg.sha256(data)), "SHA512", Hex(dg.sha512(data)));
  }

  /** The bytes processFile writes read back, through the scanner, as exactly the five
      written keys with their values. */
  lemma SidecarRoundTrip(dg: Digests, data: seq<byte>)
    ensures SidecarMap(TextLines(SidecarBytes(dg, data))) == WrittenSums(dg, data)
  {
    SidecarLinesPlain(dg, data);
    SidecarLinesMap(dg, data);
    ScanJoinedLines(SidecarLines(|data| % TwoTo64, dg.md5(data), dg.sha1(data), dg.sha256(data), dg.sha512(data)));
  }

  /** A file that gets its sidecar on the first getSums reads back its own size and digests. */
  lemma GetSumsRoundTrip(fs: Fs, dg: Digests, name: string)
    requires !HasPrefix(Split(name).1, ".") && SidecarPath(name) !in fs.nodes
    requires SidecarPath(name) !in fs.unwritable
    requires Open(fs, name).Some? && !Open(fs, name).value.failsAtEnd
    ensures GetSumsSpec(fs, dg, name).1 == Some(WrittenSums(dg, Open(fs, name).value.data))
  {
    var data := Open(fs, name).value.data;
    ProcessFileWrites(fs, dg, name);
    SidecarRoundTrip(dg, data);
  }

  /** A second getSums writes nothing and reads the same map. */
  lemma GetSumsTwice(fs: Fs, dg: Digests, name: string)
    ensures GetSumsSpec(GetSumsSpec(fs, dg, name).0, dg, name) == GetSumsSpec(fs, dg, name)
  {
    ProcessFileTwice(fs, dg, name);
  }

  /** A sidecar that cannot be opened makes every lookup "". */
  lemma MissingSidecarLookups(fs: Fs, dg: Digests, name: string, key: string)
    requires Open(GetSumsSpec(fs, dg, name).0, SidecarPath(name)).None?
    ensures Lookup(GetSumsSpec(fs, dg, name).1, key) == ""
  {
  }
}
