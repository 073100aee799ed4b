/** The local account database: loading passwd and group once, and the name lookups on them. */
module Accounts {
  import opened Text
  import opened AccountIndex

  datatype PasswdEntry = PasswdEntry(name: string, uid: int, gid: int)
  datatype GroupEntry = GroupEntry(name: string, gid: int)

  /** What opening and scanning a file gives: its lines, and whether the scanner then failed. */
  datatype FileRead = OpenFailed | Scanned(lines: seq<string>, scanFailed: bool)

  datatype LineEntry<+E> = Ignored | Invalid | Entry(entry: E)

  datatype Loaded<+E> = LoadFailed | Loaded(entries: seq<E>)

  datatype Answer = Failed | Name(name: string)

  function ParsePasswdLine(text: string): LineEntry<PasswdEntry> {
    var line := TrimSpace(text);
    if line == "" || HasPrefix(line, "#") then Ignored
    else
      var parts := Split(line, ':');
      if |parts| < 4 || TrimSpace(parts[0]) == "" then Invalid
      else
        var uid, gid := ParseUint32(parts[2]), ParseUint32(parts[3]);
        if uid.NotANumber? || gid.NotANumber? then Invalid
        else Entry(PasswdEntry(TrimSpace(parts[0]), uid.value, gid.value))
  }

  function ParseGroupLine(text: string): LineEntry<GroupEntry> {
    var line := TrimSpace(text);
    if line == "" || HasPrefix(line, "#") then Ignored
    else
      var parts := Split(line, ':');
      if |parts| < 3 || TrimSpace(parts[0]) == "" then Invalid
      else
        var gid := ParseUint32(parts[2]);
        if gid.NotANumber? then Invalid else Entry(GroupEntry(TrimSpace(parts[0]), gid.value))
  }

  /** The entries of the lines, when none is invalid. */
  function EntriesOf<E>(lines: seq<string>, parse: string -> LineEntry<E>): Loaded<E> {
    if lines == [] then Loaded([])
    else
      match (EntriesOf(lines[..|lines| - 1], parse), parse(lines[|lines| - 1]))
      case (Loaded(entries), Entry(e)) => Loaded(entries + [e])
      case (Loaded(entries), Ignored) => Loaded(entries)
      case _ => LoadFailed
  }

  function Load<E>(file: FileRead, parse: string -> LineEntry<E>): Loaded<E> {
    if file.OpenFailed? || file.scanFailed then LoadFailed else EntriesOf(file.lines, parse)
  }

  function LoadPasswdFile(file: FileRead): Loaded<PasswdEntry> {
    Load(file, ParsePasswdLine)
  }

  function LoadGroupFile(file: FileRead): Loaded<GroupEntry> {
    Load(file, ParseGroupLine)
  }

  function UidOf(e: PasswdEntry): int { e.uid }

  function UserOf(e: PasswdEntry): string { e.name }

  function GidOf(e: GroupEntry): int { e.gid }

  function GroupOf(e: GroupEntry): string { e.name }

  /** isNumericIdentifier: strconv.Atoi accepts it. */
  predicate IsNumericIdentifier(value: string) {
    Atoi(value).Number?
  }

  // ---- what each lookup answers, given the two files ----

  function UserNameByUIDIn(passwd: Loaded<PasswdEntry>, uid: int): Answer {
    if passwd.LoadFailed? then Failed
    else
      match Find(IndexBy(passwd.entries, UidOf), uid)
      case Found(e) => Name(e.name)
      case _ => Failed
  }

  function GroupNameByGIDIn(group: Loaded<GroupEntry>, gid: int): Answer {
    if group.LoadFailed? then Failed
    else
      match Find(IndexBy(group.entries, GidOf), gid)
      case Found(e) => Name(e.name)
      case _ => Failed
  }

  function PrimaryGroupNameByUserIn(passwd: Loaded<PasswdEntry>, group: Loaded<GroupEntry>, user: string): Answer {
    if passwd.LoadFailed? || group.LoadFailed? then Failed
    else
      match Find(IndexBy(passwd.entries, UserOf), user)
      case Found(e) => GroupNameByGIDIn(group, e.gid)
      case _ => Failed
  }

  /** Reconcile the reading of a numeric value as a literal name with its reading as an id. */
  function Reconcile(literal: Lookup<string>, byID: Lookup<string>): Answer {
    if literal.Ambiguous? || byID.Ambiguous? then Failed
    else if literal.Found? && byID.Found? && literal.entry != byID.entry then Failed
    else if literal.Found? then Name(literal.entry)
    else if byID.Found? then Name(byID.entry)
    else Failed
  }

  function NameOfLookup<E>(found: Lookup<E>, name: E -> string): Lookup<string> {
    match found
    case Found(e) => Found(name(e))
    case Ambiguous => Ambiguous
    case Absent => Absent
  }

  function NormalizeValueIn<E(==)>(loaded: Loaded<E>, value: string, id: E -> int, name: E -> string): Answer {
    var v := TrimSpace(value);
    if !IsNumericIdentifier(v) then Name(v)
    else if ParseUint32(v).NotANumber? || loaded.LoadFailed? then Failed
    else
      Reconcile(NameOfLookup(Find(IndexBy(loaded.entries, name), v), name),
                NameOfLookup(Find(IndexBy(loaded.entries, id), ParseUint32(v).value), name))
  }

  function NormalizeUserValueIn(passwd: Loaded<PasswdEntry>, value: string): Answer {
    NormalizeValueIn(passwd, value, UidOf, UserOf)
  }

  function NormalizeGroupValueIn(group: Loaded<GroupEntry>, value: string): Answer {
    NormalizeValueIn(group, value, GidOf, GroupOf)
  }

  /** fileAccountResolver. The two files are what reading them at the first lookup gives. */
  class FileAccountResolver {
    const passwdFile: FileRead
    const groupFile: FileRead

    var passwdDone: bool
    /** How often the file was read. */
    ghost var passwdReads: nat
    var passwdByUID: map<int, PasswdEntry>
    var passwdByName: map<string, PasswdEntry>
    var passwdUIDDup: set<int>
    var passwdNameDup: set<string>
    var passwdErr: bool

    var groupDone: bool
    /** How often the file was read. */
    ghost var groupReads: nat
    var groupByGID: map<int, GroupEntry>
    var groupByName: map<string, GroupEntry>
    var groupGIDDup: set<int>
    var groupNameDup: set<string>
    var groupErr: bool

    constructor (passwdFile: FileRead, groupFile: FileRead)
      ensures Valid() && this.passwdFile == passwdFile && this.groupFile == groupFile
    {
      this.passwdFile := passwdFile;
      this.groupFile := groupFile;
      passwdDone, passwdErr, groupDone, groupErr := false, false, false, false;
      passwdReads, groupReads := 0, 0;
    }

    ghost predicate PasswdLoaded()
      reads this
    {
      var loaded := LoadPasswdFile(passwdFile);
      && (passwdErr <==> loaded.LoadFailed?)
      && (!passwdErr ==>
            && Index(passwdByUID, passwdUIDDup) == IndexBy(loaded.entries, UidOf)
            && Index(passwdByName, passwdNameDup) == IndexBy(loaded.entries, UserOf))
    }

    ghost predicate GroupLoaded()
      reads this
    {
      var loaded := LoadGroupFile(groupFile);
      && (groupErr <==> loaded.LoadFailed?)
      && (!groupErr ==>
            && Index(groupByGID, groupGIDDup) == IndexBy(loaded.entries, GidOf)
            && Index(groupByName, groupNameDup) == IndexBy(loaded.entries, GroupOf))
    }

    /** What has been loaded is the index of its file, and no file was read twice. */
    ghost predicate Valid()
      reads this
    {
      && (passwdDone ==> PasswdLoaded()) && (groupDone ==> GroupLoaded())
      && passwdReads == (if passwdDone then 1 else 0) && groupReads == (if groupDone then 1 else 0)
    }

    /** The two map updates at the end of loadPasswd's loop body. */
    method IndexPasswd(entry: PasswdEntry)
      modifies `passwdByUID, `passwdByName, `passwdUIDDup, `passwdNameDup
      ensures Index(passwdByUID, passwdUIDDup) == Add(old(Index(passwdByUID, passwdUIDDup)), entry.uid, entry)
      ensures Index(passwdByName, passwdNameDup) == Add(old(Index(passwdByName, passwdNameDup)), entry.name, entry)
    {
      if entry.uid in passwdByUID {
        if passwdByUID[entry.uid] != entry { passwdUIDDup := passwdUIDDup + {entry.uid}; }
      } else {
        passwdByUID := passwdByUID[entry.uid := entry];
      }
      if entry.name in passwdByName {
        if passwdByName[entry.name] != entry { passwdNameDup := passwdNameDup + {entry.name}; }
      } else {
        passwdByName := passwdByName[entry.name := entry];
      }
    }

    method LoadPasswd() returns (err: bool)
      requires Valid()
      modifies this
      ensures Valid() && passwdDone && err == passwdErr
      ensures groupDone == old(groupDone)
    {
      if !passwdDone {
        passwdDone := true;
        passwdReads := passwdReads + 1;
        ReadPasswd();
      }
      return passwdErr;
    }

    /** What loadPasswd does once. */
    method ReadPasswd()
      modifies `passwdByUID, `passwdByName, `passwdUIDDup, `passwdNameDup, `passwdErr
      ensures PasswdLoaded()
    {
      hide ParsePasswdLine, ParseGroupLine;
      passwdByUID, passwdByName, passwdUIDDup, passwdNameDup, passwdErr := map[], map[], {}, {}, false;
      if passwdFile.OpenFailed? {
        passwdErr := true;
        return;
      }
      var lines := passwdFile.lines;
      ghost var entries: seq<PasswdEntry> := [];
      var i := 0;
      while i < |lines|
        invariant 0 <= i <= |lines|
        invariant EntriesOf(lines[..i], ParsePasswdLine) == Loaded(entries)
        invariant Index(passwdByUID, passwdUIDDup) == IndexBy(entries, UidOf)
        invariant Index(passwdByName, passwdNameDup) == IndexBy(entries, UserOf)
        invariant !passwdErr
      {
        assert lines[..i + 1][..i] == lines[..i];
        match ParsePasswdLine(lines[i]) {
          case Ignored =>
          case Invalid =>
            InvalidLineFails(lines, ParsePasswdLine, i);
            passwdErr := true;
            return;
          case Entry(entry) =>
            assert (entries + [entry])[..|entries|] == entries;
            IndexPasswd(entry);
            entries := entries + [entry];
        }
        i := i + 1;
      }
      assert lines[..i] == lines;
      passwdErr := passwdFile.scanFailed;
    }

    /** The two map updates at the end of loadGroup's loop body. */
    method IndexGroup(entry: GroupEntry)
      modifies `groupByGID, `groupByName, `groupGIDDup, `groupNameDup
      ensures Index(groupByGID, groupGIDDup) == Add(old(Index(groupByGID, groupGIDDup)), entry.gid, entry)
      ensures Index(groupByName, groupNameDup) == Add(old(Index(groupByName, groupNameDup)), entry.name, entry)
    {
      if entry.gid in groupByGID {
        if groupByGID[entry.gid] != entry { groupGIDDup := groupGIDDup + {entry.gid}; }
      } else {
        groupByGID := groupByGID[entry.gid := entry];
      }
      if entry.name in groupByName {
        if groupByName[entry.name] != entry { groupNameDup := groupNameDup + {entry.name}; }
      } else {
        groupByName := groupByName[entry.name := entry];
      }
    }

    method LoadGroup() returns (err: bool)
      requires Valid()
      modifies this
      ensures Valid() && groupDone && err == groupErr
      ensures passwdDone == old(passwdDone)
    {
      if !groupDone {
        groupDone := true;
        groupReads := groupReads + 1;
        ReadGroup();
      }
      return groupErr;
    }

    /** What loadGroup does once. */
    method ReadGroup()
      modifies `groupByGID, `groupByName, `groupGIDDup, `groupNameDup, `groupErr
      ensures GroupLoaded()
    {
      hide ParsePasswdLine, ParseGroupLine;
      groupByGID, groupByName, groupGIDDup, groupNameDup, groupErr := map[], map[], {}, {}, false;
      if groupFile.OpenFailed? {
        groupErr := true;
        return;
      }
      var lines := groupFile.lines;
      ghost var entries: seq<GroupEntry> := [];
      var i := 0;
      while i < |lines|
        invariant 0 <= i <= |lines|
        invariant EntriesOf(lines[..i], ParseGroupLine) == Loaded(entries)
        invariant Index(groupByGID, groupGIDDup) == IndexBy(entries, GidOf)
        invariant Index(groupByName, groupNameDup) == IndexBy(entries, GroupOf)
        invariant !groupErr
      {
        assert lines[..i + 1][..i] == lines[..i];
        match ParseGroupLine(lines[i]) {
          case Ignored =>
          case Invalid =>
            InvalidLineFails(lines, ParseGroupLine, i);
            groupErr := true;
            return;
          case Entry(entry) =>
            assert (entries + [entry])[..|entries|] == entries;
            IndexGroup(entry);
            entries := entries + [entry];
        }
        i := i + 1;
      }
      assert lines[..i] == lines;
      groupErr := groupFile.scanFailed;
    }

    method UserNameByUID(uid: int) returns (r: Answer)
      requires Valid()
      modifies this
      ensures Valid() && r == UserNameByUIDIn(LoadPasswdFile(passwdFile), uid)
      ensures passwdReads == 1 && groupReads == old(groupReads)
    {
      var err := LoadPasswd();
      if err || uid in passwdUIDDup || uid !in passwdByUID { return Failed; }
      return Name(passwdByUID[uid].name);
    }

    method GroupNameByGID(gid: int) returns (r: Answer)
      requires Valid()
      modifies this
      ensures Valid() && r == GroupNameByGIDIn(LoadGroupFile(groupFile), gid)
      ensures passwdDone == old(passwdDone)
      ensures groupReads == 1 && passwdReads == old(passwdReads)
    {
      var err := LoadGroup();
      if err || gid in groupGIDDup || gid !in groupByGID { return Failed; }
      return Name(groupByGID[gid].name);
    }

    method PrimaryGroupNameByUser(user: string) returns (r: Answer)
      requires Valid()
      modifies this
      ensures Valid()
      ensures r == PrimaryGroupNameByUserIn(LoadPasswdFile(passwdFile), LoadGroupFile(groupFile), user)
    {
      var err := LoadPasswd();
      if err { return Failed; }
      err := LoadGroup();
      if err || user in passwdNameDup || user !in passwdByName { return Failed; }
      r := GroupNameByGID(passwdByName[user].gid);
    }

    function LookupLiteralUserName(value: string): Lookup<string>
      reads this
    {
      if value in passwdNameDup then Ambiguous
      else if value in passwdByName then Found(passwdByName[value].name)
      else Absent
    }

    function LookupUserNameByUID(uid: int): Lookup<string>
      reads this
    {
      if uid in passwdUIDDup then Ambiguous
      else if uid in passwdByUID then Found(passwdByUID[uid].name)
      else Absent
    }

    method NormalizeUserValue(value: string) returns (r: Answer)
      requires Valid()
      modifies this
      ensures Valid() && r == NormalizeUserValueIn(LoadPasswdFile(passwdFile), value)
    {
      hide TrimSpace, Atoi, ParseUint32;
      var v := TrimSpace(value);
      if !IsNumericIdentifier(v) { return Name(v); }
      var id := ParseUint32(v);
      if id.NotANumber? { return Failed; }
      var err := LoadPasswd();
      if err { return Failed; }
      var literal := LookupLiteralUserName(v);
      if literal.Ambiguous? { return Failed; }
      var byUID := LookupUserNameByUID(id.value);
      if byUID.Ambiguous? { return Failed; }
      if literal.Found? && byUID.Found? && literal.entry != byUID.entry { return Failed; }
      if literal.Found? { return Name(literal.entry); }
      if byUID.Found? { return Name(byUID.entry); }
      return Failed;
    }

    function LookupLiteralGroupName(value: string): Lookup<string>
      reads this
    {
      if value in groupNameDup then Ambiguous
      else if value in groupByName then Found(groupByName[value].name)
      else Absent
    }

    function LookupGroupNameByGID(gid: int): Lookup<string>
      reads this
    {
      if gid in groupGIDDup then Ambiguous
      else if gid in groupByGID then Found(groupByGID[gid].name)
      else Absent
    }

    method NormalizeGroupValue(value: string) returns (r: Answer)
      requires Valid()
      modifies this
      ensures Valid() && r == NormalizeGroupValueIn(LoadGroupFile(groupFile), value)
    {
      hide TrimSpace, Atoi, ParseUint32;
      var v := TrimSpace(value);
      if !IsNumericIdentifier(v) { return Name(v); }
      var id := ParseUint32(v);
      if id.NotANumber? { return Failed; }
      var err := LoadGroup();
      if err { return Failed; }
      var literal := LookupLiteralGroupName(v);
      if literal.Ambiguous? { return Failed; }
      var byGID := LookupGroupNameByGID(id.value);
      if byGID.Ambiguous? { return Failed; }
      if literal.Found? && byGID.Found? && literal.entry != byGID.entry { return Failed; }
      if literal.Found? { return Name(literal.entry); }
      if byGID.Found? { return Name(byGID.entry); }
      return Failed;
    }
  }

  lemma {:induction false} InvalidLineFails<E>(lines: seq<string>, parse: string -> LineEntry<E>, i: nat)
    requires i < |lines| && parse(lines[i]).Invalid?
    ensures EntriesOf(lines, parse) == LoadFailed
    decreases |lines|
  {
    if i < |lines| - 1 {
      InvalidLineFails(lines[..|lines| - 1], parse, i);
    }
  }
}
