/** What /proc says about a process: the status file with its ids and capability masks, and the cgroup file. */
module Processes {
  import opened ByteOrder
  import opened Text
  import opened Contracts
  import opened CheckResults
  import opened Capabilities
  import opened KeyValues
  import opened Systemctl
  import opened Identity

  /** Reading a file of the process. */
  datatype File = Unreadable(failure: Failure) | Contents(data: string)

  // ---- the status file ----

  /** The trimmed value of a field, empty when it is missing. */
  function FieldOf(values: map<string, string>, key: string): string {
    if key in values then TrimSpace(values[key]) else ""
  }

  function WordLength(s: string): (n: nat)
    ensures n <= |s| && (s != "" && !IsSpace(s[0]) ==> n > 0)
  {
    if s == "" || IsSpace(s[0]) then 0 else 1 + WordLength(s[1..])
  }

  /** strings.Fields. */
  function Words(s: string): seq<string>
    decreases |s|
  {
    TrimLeftDropsFront(s);
    var t := TrimLeft(s);
    if t == "" then [] else [t[..WordLength(t)]] + Words(t[WordLength(t)..])
  }

  /** The second of the ids in a Uid or Gid line is the effective one. */
  function ParsedEffectiveID(value: string): Number {
    var words := Words(value);
    if |words| < 2 then NotANumber else Atoi(words[1])
  }

  function StatusFrom(values: map<string, string>, raw: string): Option<ProcessStatus> {
    var uid := ParsedEffectiveID(FieldOf(values, "Uid"));
    var gid := ParsedEffectiveID(FieldOf(values, "Gid"));
    var effective := ParsedCapabilityMask(FieldOf(values, "CapEff"));
    var permitted := ParsedCapabilityMask(FieldOf(values, "CapPrm"));
    var inheritable := ParsedCapabilityMask(FieldOf(values, "CapInh"));
    var bounding := ParsedCapabilityMask(FieldOf(values, "CapBnd"));
    var ambient := ParsedCapabilityMask(FieldOf(values, "CapAmb"));
    if uid.NotANumber? || gid.NotANumber? || effective.MaskError? || permitted.MaskError? || inheritable.MaskError? ||
       bounding.MaskError? || ambient.MaskError? then None
    else
      Some(ProcessStatus(uid.value, gid.value, effective.names, permitted.names, inheritable.names, bounding.names,
                         ambient.names, [], raw))
  }

  function ParsedProcessStatus(data: string): Option<ProcessStatus> {
    var raw := TrimSpace(data);
    var fields := AddLines(Split(raw, '\n'), ':');
    if raw == "" || fields.Malformed? then None else StatusFrom(fields.values, raw)
  }

  /** The fields as the loop stores them: every value trimmed. */
  ghost predicate TrimmedFields(fields: map<string, string>, values: map<string, string>) {
    fields.Keys == values.Keys && forall key | key in values :: fields[key] == TrimSpace(values[key])
  }

  method ParseProcessStatus(data: string) returns (r: Option<ProcessStatus>)
    ensures r == ParsedProcessStatus(data)
  {
    hide TrimSpace, AddLines, IndexByte, Split;
    var raw := TrimSpace(data);
    if raw == "" { return None; }
    var lines := Split(raw, '\n');
    var fields: map<string, string> := map[];
    ghost var values: map<string, string> := map[];
    assert AddLines(lines[..0], ':') == Properties(map[]) by { NoLines(':'); }
    var i := 0;
    while i < |lines|
      invariant 0 <= i <= |lines|
      invariant AddLines(lines[..i], ':') == Properties(values) && TrimmedFields(fields, values)
    {
      NextLine(lines, i, values, ':');
      var line := TrimSpace(lines[i]);
      if line != "" {
        var n := IndexByte(line, ':');
        if n == |line| || n == 0 { return None; }
        values := values[line[..n] := line[n + 1..]];
        fields := fields[line[..n] := TrimSpace(line[n + 1..])];
      }
      i := i + 1;
    }
    assert lines[..i] == lines;
    r := DecodeFields(fields, values, raw);
  }

  /** The field by field half of parseProcessStatus. */
  method DecodeFields(fields: map<string, string>, ghost values: map<string, string>, raw: string)
    returns (r: Option<ProcessStatus>)
    requires TrimmedFields(fields, values)
    ensures r == StatusFrom(values, raw)
  {
    hide TrimSpace, ParsedEffectiveID, ParsedCapabilityMask;
    var uid := ParsedEffectiveID(Stored(fields, "Uid"));
    if uid.NotANumber? { return None; }
    var gid := ParsedEffectiveID(Stored(fields, "Gid"));
    if gid.NotANumber? { return None; }
    var effective := ParseCapabilityMask(Stored(fields, "CapEff"));
    if effective.MaskError? { return None; }
    var permitted := ParseCapabilityMask(Stored(fields, "CapPrm"));
    if permitted.MaskError? { return None; }
    var inheritable := ParseCapabilityMask(Stored(fields, "CapInh"));
    if inheritable.MaskError? { return None; }
    var bounding := ParseCapabilityMask(Stored(fields, "CapBnd"));
    if bounding.MaskError? { return None; }
    var ambient := ParseCapabilityMask(Stored(fields, "CapAmb"));
    if ambient.MaskError? { return None; }
    return Some(ProcessStatus(uid.value, gid.value, effective.names, permitted.names, inheritable.names,
                              bounding.names, ambient.names, [], raw));
  }

  /** Reading a Go map: a missing key gives the empty string. */
  function Stored(fields: map<string, string>, key: string): string {
    if key in fields then fields[key] else ""
  }

  // ---- what the status file says ----

  /** The last line that assigns the key lists at least two words, the second one being the id. */
  ghost predicate EffectiveIDIs(data: string, key: string, id: int) {
    exists v ::
      && LastAssigns(Split(TrimSpace(data), '\n'), ':', key, v)
      && |Words(TrimSpace(v))| >= 2 && Atoi(Words(TrimSpace(v))[1]) == Number(id)
  }

  /** The last line that assigns the key gives the mask in hexadecimal. */
  ghost predicate MaskIs(data: string, key: string, mask: nat) {
    exists v :: LastAssigns(Split(TrimSpace(data), '\n'), ':', key, v) && ParseHex64(TrimSpace(v)) == Number(mask)
  }

  /** The list names exactly the set bits of the mask on the key's line. */
  ghost predicate NamesField(data: string, key: string, names: seq<string>) {
    exists mask: nat :: MaskIs(data, key, mask) && names == MaskNames(mask)
  }

  /** The status holds what the lines of the file say. */
  ghost predicate Shows(data: string, status: ProcessStatus) {
    && EffectiveIDIs(data, "Uid", status.uid) && EffectiveIDIs(data, "Gid", status.gid)
    && NamesField(data, "CapEff", status.effective) && NamesField(data, "CapPrm", status.permitted)
    && NamesField(data, "CapInh", status.inheritable) && NamesField(data, "CapBnd", status.bounding)
    && NamesField(data, "CapAmb", status.ambient)
  }

  ghost predicate WellFormed(data: string) {
    var lines := Split(TrimSpace(data), '\n');
    forall i | 0 <= i < |lines| :: TrimSpace(lines[i]) == "" || AssignsSomething(lines[i], ':')
  }

  lemma FieldIsLastAssigned(data: string, key: string)
    requires WellFormed(data)
    ensures var fields := AddLines(Split(TrimSpace(data), '\n'), ':');
            && fields.Properties?
            && (key in fields.values ==> LastAssigns(Split(TrimSpace(data), '\n'), ':', key, fields.values[key]))
            && (forall v | LastAssigns(Split(TrimSpace(data), '\n'), ':', key, v) ::
                  key in fields.values && fields.values[key] == v)
  {
    hide TrimSpace, Split, AddLines, LastAssigns, AssignsSomething;
    PropertiesMean(Split(TrimSpace(data), '\n'), ':');
  }

  lemma IDFieldMeans(data: string, key: string, id: int)
    requires WellFormed(data)
    ensures var fields := AddLines(Split(TrimSpace(data), '\n'), ':');
            fields.Properties? &&
            (EffectiveIDIs(data, key, id) <==> ParsedEffectiveID(FieldOf(fields.values, key)) == Number(id))
  {
    hide TrimSpace, Split, AddLines, LastAssigns, WellFormed, Atoi;
    FieldIsLastAssigned(data, key);
  }

  lemma MaskFieldMeans(data: string, key: string, names: seq<string>)
    requires WellFormed(data)
    ensures var fields := AddLines(Split(TrimSpace(data), '\n'), ':');
            fields.Properties? &&
            (NamesField(data, key, names) <==> ParsedCapabilityMask(FieldOf(fields.values, key)) == MaskOk(names))
  {
    hide TrimSpace, Split, AddLines, LastAssigns, WellFormed, ParseHex64, MaskNames;
    FieldIsLastAssigned(data, key);
    var fields := AddLines(Split(TrimSpace(data), '\n'), ':').values;
    if key in fields {
      TrimSpaceTrims(fields[key]);
      TrimmedIsFixed(TrimSpace(fields[key]));
      var mask := ParseHex64(TrimSpace(fields[key]));
      if mask.Number? && mask.value >= 0 && names == MaskNames(mask.value) {
        assert MaskIs(data, key, mask.value);
      }
    } else {
      EmptyIsNoMask();
    }
  }

  lemma EmptyIsNoMask()
    ensures ParsedCapabilityMask("") == MaskError
  {
  }

  /** A status is read exactly when every line is blank or an assignment and the seven fields parse; each id and each
      list then comes from the last line of its own field. */
  lemma StatusMeans(data: string, status: ProcessStatus)
    ensures ParsedProcessStatus(data) == Some(status) <==>
            && TrimSpace(data) != "" && WellFormed(data) && Shows(data, status)
            && status.cgroups == [] && status.raw == TrimSpace(data)
  {
    hide TrimSpace, Split, AddLines, AssignsSomething, ParsedEffectiveID, ParsedCapabilityMask, FieldOf, EffectiveIDIs,
         NamesField;
    PropertiesMean(Split(TrimSpace(data), '\n'), ':');
    if WellFormed(data) {
      IDFieldMeans(data, "Uid", status.uid);
      IDFieldMeans(data, "Gid", status.gid);
      MaskFieldMeans(data, "CapEff", status.effective);
      MaskFieldMeans(data, "CapPrm", status.permitted);
      MaskFieldMeans(data, "CapInh", status.inheritable);
      MaskFieldMeans(data, "CapBnd", status.bounding);
      MaskFieldMeans(data, "CapAmb", status.ambient);
    }
  }

  lemma MaskIsUnique(data: string, key: string, a: nat, b: nat)
    requires MaskIs(data, key, a) && MaskIs(data, key, b)
    ensures a == b
  {
    hide TrimSpace, Split, LastAssigns, ParseHex64;
    var lines := Split(TrimSpace(data), '\n');
    var v :| LastAssigns(lines, ':', key, v) && ParseHex64(TrimSpace(v)) == Number(a);
    var w :| LastAssigns(lines, ':', key, w) && ParseHex64(TrimSpace(w)) == Number(b);
    LastAssignmentIsUnique(lines, ':', key, v, w);
  }

  lemma EffectiveIDIsUnique(data: string, key: string, a: int, b: int)
    requires EffectiveIDIs(data, key, a) && EffectiveIDIs(data, key, b)
    ensures a == b
  {
    hide TrimSpace, Split, LastAssigns, Words, Atoi;
    var lines := Split(TrimSpace(data), '\n');
    var v :| LastAssigns(lines, ':', key, v) && |Words(TrimSpace(v))| >= 2 && Atoi(Words(TrimSpace(v))[1]) == Number(a);
    var w :| LastAssigns(lines, ':', key, w) && |Words(TrimSpace(w))| >= 2 && Atoi(Words(TrimSpace(w))[1]) == Number(b);
    LastAssignmentIsUnique(lines, ':', key, v, w);
  }

  // ---- words ----

  predicate NoSpace(s: string) {
    forall i | 0 <= i < |s| :: !IsSpace(s[i])
  }

  lemma {:induction false} WordLengthIs(word: string, rest: string)
    requires NoSpace(word) && (rest == "" || IsSpace(rest[0]))
    ensures WordLength(word + rest) == |word|
  {
    if word == "" {
      assert word + rest == rest;
    } else {
      assert (word + rest)[1..] == word[1..] + rest;
      WordLengthIs(word[1..], rest);
    }
  }

  /** White space has no words; otherwise the first word is the first run without white space. These two cases
      determine the words of every string. */
  lemma WordsMean(lead: string, word: string, rest: string)
    requires AllSpace(lead) && NoSpace(word) && (rest == "" || IsSpace(rest[0]))
    ensures Words(lead) == []
    ensures word != "" ==> Words(lead + word + rest) == [word] + Words(rest)
  {
    assert lead + "" == lead && lead + word + rest == lead + (word + rest);
    TrimLeftOfSpaces(lead, "");
    if word != "" {
      TrimLeftOfSpaces(lead, word + rest);
      WordLengthIs(word, rest);
    }
  }

  // ---- the cgroup file ----

  datatype CgroupLine = BlankLine | BadLine | CgroupPath(path: string)

  /** One line `hierarchy:controllers:path`; the path may hold further colons. */
  function ParseCgroupLine(text: string): CgroupLine {
    var line := TrimSpace(text);
    var n := IndexByte(line, ':');
    if line == "" then BlankLine
    else if n == |line| then BadLine
    else
      var rest := line[n + 1..];
      var m := IndexByte(rest, ':');
      if m == |rest| || TrimSpace(rest[m + 1..]) == "" then BadLine else CgroupPath(TrimSpace(rest[m + 1..]))
  }

  datatype Cgroups = BadCgroups | Cgroups(paths: seq<string>)

  function AddCgroup(cgroups: Cgroups, line: string): Cgroups {
    if cgroups.BadCgroups? then BadCgroups
    else
      match ParseCgroupLine(line)
      case BlankLine => cgroups
      case BadLine => BadCgroups
      case CgroupPath(path) => Cgroups(cgroups.paths + [path])
  }

  function AddCgroups(lines: seq<string>): Cgroups {
    if lines == [] then Cgroups([]) else AddCgroup(AddCgroups(lines[..|lines| - 1]), lines[|lines| - 1])
  }

  function ParsedCgroups(data: string): Option<seq<string>> {
    var raw := TrimSpace(data);
    var cgroups := AddCgroups(Split(raw, '\n'));
    if raw == "" || cgroups.BadCgroups? || cgroups.paths == [] then None else Some(cgroups.paths)
  }

  lemma {:induction false} BadCgroupsStay(lines: seq<string>, n: nat)
    requires n <= |lines| && AddCgroups(lines[..n]).BadCgroups?
    ensures AddCgroups(lines).BadCgroups?
    decreases |lines| - n
  {
    if n < |lines| {
      assert lines[..n + 1][..n] == lines[..n];
      BadCgroupsStay(lines, n + 1);
    } else {
      assert lines[..n] == lines;
    }
  }

  method ParseProcessCgroups(data: string) returns (r: Option<seq<string>>)
    ensures r == ParsedCgroups(data)
  {
    var raw := TrimSpace(data);
    if raw == "" { return None; }
    var lines := Split(raw, '\n');
    var cgroups: seq<string> := [];
    var i := 0;
    while i < |lines|
      invariant 0 <= i <= |lines|
      invariant AddCgroups(lines[..i]) == Cgroups(cgroups)
    {
      assert lines[..i + 1][..i] == lines[..i];
      var next := AddCgroup(Cgroups(cgroups), lines[i]);
      if next.BadCgroups? {
        BadCgroupsStay(lines, i + 1);
        return None;
      }
      cgroups := next.paths;
      i := i + 1;
    }
    assert lines[..i] == lines;
    if cgroups == [] { return None; }
    return Some(cgroups);
  }

  /** OSProcessReader.ReadStatus, given what reading the two files gave. */
  function ReadStatus(statusFile: File, cgroupFile: File): Inspection {
    if statusFile.Unreadable? then Inspection(NO_STATUS, Some(statusFile.failure))
    else if cgroupFile.Unreadable? then Inspection(NO_STATUS, Some(cgroupFile.failure))
    else
      var status, cgroups := ParsedProcessStatus(statusFile.data), ParsedCgroups(cgroupFile.data);
      if status.None? || cgroups.None? then Inspection(NO_STATUS, Some(ProcessParse))
      else
        var trimmed := TrimSpace(cgroupFile.data);
        Inspection(status.value.(cgroups := cgroups.value,
                                 raw := if trimmed != "" then status.value.raw + "\n---\n" + trimmed else status.value.raw),
                   None)
  }

  // ---- what a successful read means ----

  /** The line says hierarchy:controllers:path, the trimmed path not being empty. */
  ghost predicate NamesCgroup(line: string, path: string) {
    exists hierarchy, controllers, p ::
      && ':' !in hierarchy && ':' !in controllers
      && TrimSpace(line) == hierarchy + ":" + controllers + ":" + p
      && TrimSpace(p) == path && path != ""
  }

  lemma TwoColons(h: string, c: string, p: string)
    requires ':' !in h && ':' !in c
    ensures var t := h + ":" + c + ":" + p;
            && t != "" && IndexByte(t, ':') == |h| < |t|
            && var rest := t[|h| + 1..]; IndexByte(rest, ':') == |c| < |rest| && rest[|c| + 1..] == p
  {
    hide IndexByte;
    IndexByteIs(h, ':', c + ":" + p);
    IndexByteIs(c, ':', p);
    assert h + ":" + c + ":" + p == h + ":" + (c + ":" + p);
  }

  lemma SplitsAtColons(t: string, n: nat, m: nat)
    requires n < |t| && t[n] == ':' && n + 1 + m < |t| && t[n + 1..][m] == ':'
    ensures t == t[..n] + ":" + t[n + 1..][..m] + ":" + t[n + 1..][m + 1..]
  {
  }

  lemma CgroupLineMeans(line: string, path: string)
    ensures ParseCgroupLine(line) == CgroupPath(path) <==> NamesCgroup(line, path)
  {
    hide TrimSpace, IndexByte;
    var t := TrimSpace(line);
    if NamesCgroup(line, path) {
      var h, c, p :| ':' !in h && ':' !in c && t == h + ":" + c + ":" + p && TrimSpace(p) == path && path != "";
      TwoColons(h, c, p);
    }
    if ParseCgroupLine(line) == CgroupPath(path) {
      SplitsAtColons(t, IndexByte(t, ':'), IndexByte(t[IndexByte(t, ':') + 1..], ':'));
    }
  }

  /** Every line is blank or names a cgroup, and the paths are those of the lines. */
  lemma {:induction false} CgroupsMean(lines: seq<string>)
    ensures AddCgroups(lines).Cgroups? <==> forall line | line in lines :: !ParseCgroupLine(line).BadLine?
    ensures AddCgroups(lines).Cgroups? ==>
              forall g :: g in AddCgroups(lines).paths <==> exists line :: line in lines && ParseCgroupLine(line) == CgroupPath(g)
  {
    hide ParseCgroupLine;
    if lines != [] {
      var init, last := lines[..|lines| - 1], lines[|lines| - 1];
      CgroupsMean(init);
      assert lines == init + [last];
      assert forall line :: line in lines <==> line in init || line == last;
    }
  }

  /** A read without error holds what the lines of the two files say. */
  lemma ReadStatusMeans(statusFile: File, cgroupFile: File)
    requires ReadStatus(statusFile, cgroupFile).err.None?
    ensures var status := ReadStatus(statusFile, cgroupFile).status;
            && statusFile.Contents? && cgroupFile.Contents?
            && WellFormed(statusFile.data) && Shows(statusFile.data, status)
            && status.cgroups != []
            && forall g :: g in status.cgroups <==>
                 exists line :: line in Split(TrimSpace(cgroupFile.data), '\n') && NamesCgroup(line, g)
  {
    hide StatusFrom, AddLines, AddCgroups, NamesCgroup, ParseCgroupLine, TrimSpace, Split, WellFormed, EffectiveIDIs, NamesField;
    var status, lines := ReadStatus(statusFile, cgroupFile).status, Split(TrimSpace(cgroupFile.data), '\n');
    StatusMeans(statusFile.data, ParsedProcessStatus(statusFile.data).value);
    CgroupsMean(lines);
    forall line, g ensures ParseCgroupLine(line) == CgroupPath(g) <==> NamesCgroup(line, g) { CgroupLineMeans(line, g); }
  }

  /** From the files of the process to the verdict of a uid or gid check. */
  lemma IDVerdictIsExact(spec: IdentitySpec, kind: string, found: PIDResult, statusFile: File, cgroupFile: File)
    requires Declared(spec, kind) && (kind == "uid" || kind == "gid")
    requires WithProcess(found, ReadStatus(statusFile, cgroupFile)).err.None?
    ensures var o := WithProcess(found, ReadStatus(statusFile, cgroupFile));
            && statusFile.Contents?
            && (Judged(spec, kind, false, o).status == Pass <==>
                if kind == "uid" then EffectiveIDIs(statusFile.data, "Uid", spec.uid.value)
                else EffectiveIDIs(statusFile.data, "Gid", spec.gid.value))
  {
    hide ReadStatus, CgroupsContain, EffectiveIDIs, NamesField, WellFormed, NamesCgroup, JoinRaw;
    var status := ReadStatus(statusFile, cgroupFile).status;
    ReadStatusMeans(statusFile, cgroupFile);
    if kind == "uid" {
      if EffectiveIDIs(statusFile.data, "Uid", spec.uid.value) {
        EffectiveIDIsUnique(statusFile.data, "Uid", spec.uid.value, status.uid);
      }
    } else if EffectiveIDIs(statusFile.data, "Gid", spec.gid.value) {
      EffectiveIDIsUnique(statusFile.data, "Gid", spec.gid.value, status.gid);
    }
  }

  /** The verdict passes exactly when the list names the bits of the one mask on the key's line. */
  ghost predicate ExactOn(passed: bool, expected: seq<string>, data: string, key: string) {
    && (exists mask: nat :: MaskIs(data, key, mask))
    && forall mask: nat | MaskIs(data, key, mask) :: passed <==> NamesBits(expected, mask)
  }

  /** The verdict of a capability check is exact for the contract's list of its own set and the line of that set. */
  ghost predicate KindIsExact(passed: bool, spec: IdentitySpec, kind: string, data: string)
    requires Declared(spec, kind)
  {
    && (kind == "capabilities.effective" ==> ExactOn(passed, spec.capabilities.value.effective.value, data, "CapEff"))
    && (kind == "capabilities.permitted" ==> ExactOn(passed, spec.capabilities.value.permitted.value, data, "CapPrm"))
    && (kind == "capabilities.inheritable" ==> ExactOn(passed, spec.capabilities.value.inheritable.value, data, "CapInh"))
    && (kind == "capabilities.bounding" ==> ExactOn(passed, spec.capabilities.value.bounding.value, data, "CapBnd"))
    && (kind == "capabilities.ambient" ==> ExactOn(passed, spec.capabilities.value.ambient.value, data, "CapAmb"))
  }

  lemma KindIsDecided(spec: IdentitySpec, kind: string, o: Observation, data: string)
    requires Declared(spec, kind) && o.err.None? && Shows(data, o.status)
    ensures KindIsExact(Judged(spec, kind, false, o).status == Pass, spec, kind, data)
  {
    hide MaskNames, NamesBits, Judged, NamesField, ExactOn, EffectiveIDIs;
    var passed := Judged(spec, kind, false, o).status == Pass;
    forall mask: nat
      ensures o.status.effective == MaskNames(mask) && kind == "capabilities.effective" ==>
                (passed <==> NamesBits(spec.capabilities.value.effective.value, mask))
      ensures o.status.permitted == MaskNames(mask) && kind == "capabilities.permitted" ==>
                (passed <==> NamesBits(spec.capabilities.value.permitted.value, mask))
      ensures o.status.inheritable == MaskNames(mask) && kind == "capabilities.inheritable" ==>
                (passed <==> NamesBits(spec.capabilities.value.inheritable.value, mask))
      ensures o.status.bounding == MaskNames(mask) && kind == "capabilities.bounding" ==>
                (passed <==> NamesBits(spec.capabilities.value.bounding.value, mask))
      ensures o.status.ambient == MaskNames(mask) && kind == "capabilities.ambient" ==>
                (passed <==> NamesBits(spec.capabilities.value.ambient.value, mask))
    {
      MaskVerdictMeans(spec, kind, o, mask);
    }
    match kind
    case "capabilities.effective" =>
      FieldDecides(passed, spec.capabilities.value.effective.value, data, "CapEff", o.status.effective);
    case "capabilities.permitted" =>
      FieldDecides(passed, spec.capabilities.value.permitted.value, data, "CapPrm", o.status.permitted);
    case "capabilities.inheritable" =>
      FieldDecides(passed, spec.capabilities.value.inheritable.value, data, "CapInh", o.status.inheritable);
    case "capabilities.bounding" =>
      FieldDecides(passed, spec.capabilities.value.bounding.value, data, "CapBnd", o.status.bounding);
    case "capabilities.ambient" =>
      FieldDecides(passed, spec.capabilities.value.ambient.value, data, "CapAmb", o.status.ambient);
    case _ =>
  }

  /** From the files of the process to the verdict: a capability check that gets to compare passes exactly when the
      contract's list of its own set names, once each, the bits of the mask on the line of that set. */
  lemma CapabilityVerdictIsExact(spec: IdentitySpec, kind: string, found: PIDResult, statusFile: File, cgroupFile: File)
    requires Declared(spec, kind)
    requires WithProcess(found, ReadStatus(statusFile, cgroupFile)).err.None?
    ensures var o := WithProcess(found, ReadStatus(statusFile, cgroupFile));
            statusFile.Contents? && KindIsExact(Judged(spec, kind, false, o).status == Pass, spec, kind, statusFile.data)
  {
    hide Declared, ReadStatus, Judged, CgroupsContain, Shows, WellFormed, NamesCgroup, JoinRaw, KindIsExact;
    var o := WithProcess(found, ReadStatus(statusFile, cgroupFile));
    ReadStatusMeans(statusFile, cgroupFile);
    KindIsDecided(spec, kind, o, statusFile.data);
  }

  lemma FieldDecides(passed: bool, expected: seq<string>, data: string, key: string, names: seq<string>)
    requires NamesField(data, key, names)
    requires forall mask: nat | names == MaskNames(mask) :: passed <==> NamesBits(expected, mask)
    ensures ExactOn(passed, expected, data, key)
  {
    hide MaskNames, NamesBits, MaskIs;
    var read: nat :| MaskIs(data, key, read) && names == MaskNames(read);
    forall mask: nat | MaskIs(data, key, mask) ensures mask == read { MaskIsUnique(data, key, mask, read); }
  }

  /** The lists read from a process are in the order the comparison expects. */
  lemma ReadStatusIsCanonical(statusFile: File, cgroupFile: File)
    requires ReadStatus(statusFile, cgroupFile).err.None?
    ensures Canonical(ReadStatus(statusFile, cgroupFile).status)
  {
    hide NamesField, ReadStatus, WellFormed, NamesCgroup, EffectiveIDIs;
    ReadStatusMeans(statusFile, cgroupFile);
    var status, data := ReadStatus(statusFile, cgroupFile).status, statusFile.data;
    FieldIsSorted(data, "CapEff", status.effective);
    FieldIsSorted(data, "CapPrm", status.permitted);
    FieldIsSorted(data, "CapInh", status.inheritable);
    FieldIsSorted(data, "CapBnd", status.bounding);
    FieldIsSorted(data, "CapAmb", status.ambient);
  }

  lemma FieldIsSorted(data: string, key: string, names: seq<string>)
    requires NamesField(data, key, names)
    ensures SortStrings(names) == names
  {
    hide MaskNames, MaskIs;
    var mask: nat :| MaskIs(data, key, mask) && names == MaskNames(mask);
    MaskNamesAreSorted(mask);
  }

  lemma MaskNamesAreSorted(mask: nat)
    ensures SortStrings(MaskNames(mask)) == MaskNames(mask)
  {
    hide NamesBelow;
    SortStringsIgnoresOrder(MaskNames(mask), NamesBelow(mask, 64));
  }
}
