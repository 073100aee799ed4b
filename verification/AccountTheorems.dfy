/** What the account lookups mean in terms of the entries of the files, whatever their order. */
module AccountTheorems {
  import opened ByteOrder
  import opened Text
  import opened AccountIndex
  import opened Accounts

  /** Exactly one entry (repeated lines aside) is filed under the key, and it carries the name. */
  ghost predicate OnlyEntryNamed<K, E(!new)>(entries: seq<E>, key: E -> K, k: K, name: E -> string, n: string) {
    exists e :: Filed(entries, key, k) == {e} && name(e) == n
  }

  lemma UserNameByUIDMeans(passwd: Loaded<PasswdEntry>, uid: int, n: string)
    ensures UserNameByUIDIn(passwd, uid) == Name(n) <==>
            passwd.Loaded? && OnlyEntryNamed(passwd.entries, UidOf, uid, UserOf, n)
  {
    if passwd.Loaded? {
      FindMeans(passwd.entries, UidOf, uid);
    }
  }

  lemma GroupNameByGIDMeans(group: Loaded<GroupEntry>, gid: int, n: string)
    ensures GroupNameByGIDIn(group, gid) == Name(n) <==>
            group.Loaded? && OnlyEntryNamed(group.entries, GidOf, gid, GroupOf, n)
  {
    if group.Loaded? {
      FindMeans(group.entries, GidOf, gid);
    }
  }

  /** A user has a primary group name exactly when one entry bears the user's name and one bears its gid. */
  lemma PrimaryGroupMeans(passwd: Loaded<PasswdEntry>, group: Loaded<GroupEntry>, user: string, n: string)
    ensures PrimaryGroupNameByUserIn(passwd, group, user) == Name(n) <==>
            passwd.Loaded? && group.Loaded? &&
            exists e :: Filed(passwd.entries, UserOf, user) == {e} && OnlyEntryNamed(group.entries, GidOf, e.gid, GroupOf, n)
  {
    if passwd.Loaded? && group.Loaded? {
      FindMeans(passwd.entries, UserOf, user);
      var found := Find(IndexBy(passwd.entries, UserOf), user);
      if found.Found? {
        GroupNameByGIDMeans(group, found.entry.gid, n);
      }
    }
  }

  /** The readings of a numeric value: entries bearing it as a name, and entries bearing it as an id. */
  ghost function Readings<E>(entries: seq<E>, v: string, id: E -> int, name: E -> string): set<E>
    requires ParseUint32(v).Number?
  {
    Filed(entries, name, v) + Filed(entries, id, ParseUint32(v).value)
  }

  ghost predicate AtMostOne<E>(s: set<E>) {
    forall a, b | a in s && b in s :: a == b
  }

  /** A numeric value normalises to `n` exactly when it has a reading, neither way of reading it is ambiguous, and
      every reading names `n`. */
  lemma NumericNormalizesMeans<E>(loaded: Loaded<E>, value: string, id: E -> int, name: E -> string, n: string)
    requires IsNumericIdentifier(TrimSpace(value)) && ParseUint32(TrimSpace(value)).Number? && loaded.Loaded?
    ensures var v := TrimSpace(value);
            NormalizeValueIn(loaded, value, id, name) == Name(n) <==>
            && AtMostOne(Filed(loaded.entries, name, v))
            && AtMostOne(Filed(loaded.entries, id, ParseUint32(v).value))
            && Readings(loaded.entries, v, id, name) != {}
            && forall e | e in Readings(loaded.entries, v, id, name) :: name(e) == n
  {
    hide Atoi, ParseUint32;
    var v := TrimSpace(value);
    var k := ParseUint32(v).value;
    FindMeans(loaded.entries, name, v);
    FindMeans(loaded.entries, id, k);
    FoundIsIn(loaded.entries, name, v);
    FoundIsIn(loaded.entries, id, k);
  }

  /** The other values: a value that is no number is its own name whatever was loaded; a number outside 32 bits fails,
      and so does every number when the file could not be loaded. */
  lemma OtherValuesNormalize<E>(loaded: Loaded<E>, value: string, id: E -> int, name: E -> string)
    ensures var v := TrimSpace(value);
            && (Atoi(v).NotANumber? ==> NormalizeValueIn(loaded, value, id, name) == Name(v))
            && (Atoi(v).Number? && ParseUint32(v).NotANumber? ==> NormalizeValueIn(loaded, value, id, name) == Failed)
            && (Atoi(v).Number? && loaded.LoadFailed? ==> NormalizeValueIn(loaded, value, id, name) == Failed)
  {
    hide Atoi, ParseUint32, TrimSpace;
  }

  /** What a user value normalises to, for every value and every state of passwd. */
  lemma UserValueMeans(passwd: Loaded<PasswdEntry>, value: string, n: string)
    ensures var v := TrimSpace(value);
            NormalizeUserValueIn(passwd, value) == Name(n) <==>
            if Atoi(v).NotANumber? then n == v
            else
              && passwd.Loaded? && ParseUint32(v).Number?
              && NamedBy(passwd.entries, (e: PasswdEntry) => e.uid, (e: PasswdEntry) => e.name, v, n)
  {
    hide Atoi, ParseUint32, TrimSpace, NormalizeValueIn;
    OtherValuesNormalize(passwd, value, UidOf, UserOf);
    var v := TrimSpace(value);
    if passwd.Loaded? && Atoi(v).Number? && ParseUint32(v).Number? {
      NumericNormalizesMeans(passwd, value, UidOf, UserOf, n);
      SameReadings(passwd.entries, UidOf, UserOf, (e: PasswdEntry) => e.uid, (e: PasswdEntry) => e.name, v, n);
    }
  }

  /** The same for a group value and group. */
  lemma GroupValueMeans(group: Loaded<GroupEntry>, value: string, n: string)
    ensures var v := TrimSpace(value);
            NormalizeGroupValueIn(group, value) == Name(n) <==>
            if Atoi(v).NotANumber? then n == v
            else
              && group.Loaded? && ParseUint32(v).Number?
              && NamedBy(group.entries, (e: GroupEntry) => e.gid, (e: GroupEntry) => e.name, v, n)
  {
    hide Atoi, ParseUint32, TrimSpace, NormalizeValueIn;
    OtherValuesNormalize(group, value, GidOf, GroupOf);
    var v := TrimSpace(value);
    if group.Loaded? && Atoi(v).Number? && ParseUint32(v).Number? {
      NumericNormalizesMeans(group, value, GidOf, GroupOf, n);
      SameReadings(group.entries, GidOf, GroupOf, (e: GroupEntry) => e.gid, (e: GroupEntry) => e.name, v, n);
    }
  }

  /** The entries that bear the number as a name agree, so do those that bear it as an id, and all of them, at least
      one, are named `n`. */
  ghost predicate NamedBy<E(!new)>(entries: seq<E>, id: E -> int, name: E -> string, v: string, n: string)
    requires ParseUint32(v).Number?
  {
    var k := ParseUint32(v).value;
    && (forall a, b | a in entries && b in entries && name(a) == v && name(b) == v :: a == b)
    && (forall a, b | a in entries && b in entries && id(a) == k && id(b) == k :: a == b)
    && (exists e :: e in entries && (name(e) == v || id(e) == k))
    && (forall e | e in entries && (name(e) == v || id(e) == k) :: name(e) == n)
  }

  lemma SameReadings<E(!new)>(entries: seq<E>, id: E -> int, name: E -> string, id': E -> int, name': E -> string, v: string,
                        n: string)
    requires ParseUint32(v).Number?
    requires (forall e :: id(e) == id'(e)) && forall e :: name(e) == name'(e)
    ensures NamedBy(entries, id', name', v, n) <==>
            && AtMostOne(Filed(entries, name, v)) && AtMostOne(Filed(entries, id, ParseUint32(v).value))
            && Readings(entries, v, id, name) != {}
            && forall e | e in Readings(entries, v, id, name) :: name(e) == n
  {
    hide ParseUint32;
    var k := ParseUint32(v).value;
    assert forall e :: e in Readings(entries, v, id, name) <==> e in entries && (name(e) == v || id(e) == k);
    if e :| e in entries && (name'(e) == v || id'(e) == k) {
      assert e in Readings(entries, v, id, name);
    }
  }

  lemma FoundIsIn<K, E>(entries: seq<E>, key: E -> K, k: K)
    ensures var found := Find(IndexBy(entries, key), k);
            && (found.Found? ==> Filed(entries, key, k) == {found.entry})
            && (found.Ambiguous? <==> !AtMostOne(Filed(entries, key, k)))
            && (found.Absent? <==> Filed(entries, key, k) == {})
  {
    FindMeans(entries, key, k);
  }

  // ---- order and repetition of lines ----

  lemma {:induction false} EntriesAreParsedLines<E>(lines: seq<string>, parse: string -> LineEntry<E>)
    ensures EntriesOf(lines, parse).LoadFailed? <==> exists line :: line in lines && parse(line).Invalid?
    ensures EntriesOf(lines, parse).Loaded? ==>
              forall e :: e in EntriesOf(lines, parse).entries <==> exists line :: line in lines && parse(line) == Entry(e)
  {
    if lines != [] {
      var init, last := lines[..|lines| - 1], lines[|lines| - 1];
      EntriesAreParsedLines(init, parse);
      assert lines == init + [last];
      assert last in lines;
      assert forall line :: line in lines <==> line in init || line == last;
    }
  }

  /** Two readings of a file with the same lines in any order, some perhaps repeated. */
  ghost predicate SameLines(a: FileRead, b: FileRead) {
    && (a.OpenFailed? <==> b.OpenFailed?)
    && (a.Scanned? ==> a.scanFailed == b.scanFailed && forall line :: line in a.lines <==> line in b.lines)
  }

  lemma LoadIgnoresOrder<E>(a: FileRead, b: FileRead, parse: string -> LineEntry<E>)
    requires SameLines(a, b)
    ensures Load(a, parse).Loaded? <==> Load(b, parse).Loaded?
    ensures Load(a, parse).Loaded? ==> forall e :: e in Load(a, parse).entries <==> e in Load(b, parse).entries
  {
    if a.Scanned? {
      EntriesAreParsedLines(a.lines, parse);
      EntriesAreParsedLines(b.lines, parse);
    }
  }

  lemma NormalizeIgnoresOrder<E>(a: Loaded<E>, b: Loaded<E>, value: string, id: E -> int, name: E -> string)
    requires a.Loaded? <==> b.Loaded?
    requires a.Loaded? ==> forall e :: e in a.entries <==> e in b.entries
    ensures NormalizeValueIn(a, value, id, name) == NormalizeValueIn(b, value, id, name)
  {
    var v := TrimSpace(value);
    if a.Loaded? && ParseUint32(v).Number? {
      FindIgnoresOrder(a.entries, b.entries, name, v);
      FindIgnoresOrder(a.entries, b.entries, id, ParseUint32(v).value);
    }
  }

  /** Every lookup gives the same answer for every reordering of the lines of the two files. */
  lemma LookupsIgnoreLineOrder(p: FileRead, p': FileRead, g: FileRead, g': FileRead, id: int, value: string)
    requires SameLines(p, p') && SameLines(g, g')
    ensures UserNameByUIDIn(LoadPasswdFile(p), id) == UserNameByUIDIn(LoadPasswdFile(p'), id)
    ensures GroupNameByGIDIn(LoadGroupFile(g), id) == GroupNameByGIDIn(LoadGroupFile(g'), id)
    ensures PrimaryGroupNameByUserIn(LoadPasswdFile(p), LoadGroupFile(g), value) ==
            PrimaryGroupNameByUserIn(LoadPasswdFile(p'), LoadGroupFile(g'), value)
    ensures NormalizeUserValueIn(LoadPasswdFile(p), value) == NormalizeUserValueIn(LoadPasswdFile(p'), value)
    ensures NormalizeGroupValueIn(LoadGroupFile(g), value) == NormalizeGroupValueIn(LoadGroupFile(g'), value)
  {
    hide ParsePasswdLine, ParseGroupLine, Load, Find, NormalizeValueIn;
    var passwd, passwd' := LoadPasswdFile(p), LoadPasswdFile(p');
    var group, group' := LoadGroupFile(g), LoadGroupFile(g');
    LoadIgnoresOrder(p, p', ParsePasswdLine);
    LoadIgnoresOrder(g, g', ParseGroupLine);
    NormalizeIgnoresOrder(passwd, passwd', value, UidOf, UserOf);
    NormalizeIgnoresOrder(group, group', value, GidOf, GroupOf);
    if passwd.Loaded? {
      FindIgnoresOrder(passwd.entries, passwd'.entries, UidOf, id);
      FindIgnoresOrder(passwd.entries, passwd'.entries, UserOf, value);
    }
    if group.Loaded? {
      FindIgnoresOrder(group.entries, group'.entries, GidOf, id);
      if passwd.Loaded? && Find(IndexBy(passwd.entries, UserOf), value).Found? {
        var gid := Find(IndexBy(passwd.entries, UserOf), value).entry.gid;
        FindIgnoresOrder(group.entries, group'.entries, GidOf, gid);
      }
    }
  }

  // ---- the columns of the files ----

  function Joined(fields: seq<string>): string {
    if fields == [] then "" else ":" + fields[0] + Joined(fields[1..])
  }

  lemma {:induction false} SplitJoined(first: string, fields: seq<string>)
    requires ':' !in first && forall f | f in fields :: ':' !in f
    ensures Split(first + Joined(fields), ':') == [first] + fields
    decreases |fields|
  {
    if fields == [] {
      SplitWithoutSeparator(first);
      assert first + "" == first;
    } else {
      assert first + Joined(fields) == first + [':'] + (fields[0] + Joined(fields[1..]));
      SplitAtSeparator(first, ':', fields[0] + Joined(fields[1..]));
      SplitJoined(fields[0], fields[1..]);
    }
  }

  lemma {:induction false} SplitWithoutSeparator(s: string)
    requires ':' !in s
    ensures Split(s, ':') == [s]
  {
    if s != "" {
      SplitWithoutSeparator(s[1..]);
      assert [s[0]] + s[1..] == s;
    }
  }

  /** The columns of passwd: name:password:uid:gid and whatever follows. */
  lemma PasswdColumns(text: string, name: string, password: string, uid: string, gid: string, more: seq<string>)
    requires forall f | f in [name, password, uid, gid] + more :: ':' !in f
    requires TrimSpace(text) == name + Joined([password, uid, gid] + more) && !HasPrefix(TrimSpace(text), "#")
    ensures ParsePasswdLine(text) ==
            if TrimSpace(name) == "" || ParseUint32(uid).NotANumber? || ParseUint32(gid).NotANumber? then Invalid
            else Entry(PasswdEntry(TrimSpace(name), ParseUint32(uid).value, ParseUint32(gid).value))
  {
    hide TrimSpace, ParseUint32, Split;
    var fields := [password, uid, gid] + more;
    assert forall f | f in fields :: f in [name, password, uid, gid] + more;
    assert name in [name, password, uid, gid] + more;
    SplitJoined(name, fields);
    assert Joined(fields)[0] == ':';
  }

  /** The columns of group: name:password:gid and whatever follows. */
  lemma GroupColumns(text: string, name: string, password: string, gid: string, more: seq<string>)
    requires forall f | f in [name, password, gid] + more :: ':' !in f
    requires TrimSpace(text) == name + Joined([password, gid] + more) && !HasPrefix(TrimSpace(text), "#")
    ensures ParseGroupLine(text) ==
            if TrimSpace(name) == "" || ParseUint32(gid).NotANumber? then Invalid
            else Entry(GroupEntry(TrimSpace(name), ParseUint32(gid).value))
  {
    hide TrimSpace, ParseUint32, Split;
    var fields := [password, gid] + more;
    assert forall f | f in fields :: f in [name, password, gid] + more;
    assert name in [name, password, gid] + more;
    SplitJoined(name, fields);
    assert Joined(fields)[0] == ':';
  }

  /** Blank lines and comments are no entries; a line with too few columns spoils the file. */
  lemma OtherLines(text: string)
    ensures var line := TrimSpace(text);
            && (line == "" || line[0] == '#' ==> ParsePasswdLine(text) == Ignored && ParseGroupLine(text) == Ignored)
            && (line != "" && line[0] != '#' && |Split(line, ':')| < 4 ==> ParsePasswdLine(text) == Invalid)
            && (line != "" && line[0] != '#' && |Split(line, ':')| < 3 ==> ParseGroupLine(text) == Invalid)
  {
    hide TrimSpace, Split;
  }

  /** A file is loaded exactly when it was opened and read to its end and no line is invalid; its entries are then those
      of its lines. */
  lemma LoadMeans<E>(file: FileRead, parse: string -> LineEntry<E>)
    ensures Load(file, parse).Loaded? <==>
            file.Scanned? && !file.scanFailed && forall line | line in file.lines :: !parse(line).Invalid?
    ensures Load(file, parse).Loaded? ==>
              forall e :: e in Load(file, parse).entries <==> exists line :: line in file.lines && parse(line) == Entry(e)
  {
    if file.Scanned? {
      EntriesAreParsedLines(file.lines, parse);
    }
  }
}
