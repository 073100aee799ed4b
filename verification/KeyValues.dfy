/** Lines of the form key, separator, value, as systemctl and /proc print them. */
module KeyValues {
  import opened Text

  datatype Properties = Malformed | Properties(values: map<string, string>)

  /** strings.Index for one byte, the length of the string when it is not there. */
  function IndexByte(s: string, c: char): (n: nat)
    ensures n <= |s| && c !in s[..n] && (n < |s| ==> s[n] == c)
  {
    if s == "" || s[0] == c then 0 else 1 + IndexByte(s[1..], c)
  }

  lemma IndexByteIs(front: string, c: char, rest: string)
    requires c !in front
    ensures IndexByte(front + [c] + rest, c) == |front|
    ensures (front + [c] + rest)[..|front|] == front && (front + [c] + rest)[|front| + 1..] == rest
  {
    var s := front + [c] + rest;
    assert s[|front|] == c;
    assert s[..|front|] == front && s[|front| + 1..] == rest;
  }

  /** A line adds its assignment, a blank one nothing; anything else spoils the whole. */
  function AddLine(properties: Properties, line: string, separator: char): Properties {
    var line := TrimSpace(line);
    if properties.Malformed? || line == "" then properties
    else
      var n := IndexByte(line, separator);
      if n == |line| || n == 0 then Malformed
      else Properties(properties.values[line[..n] := line[n + 1..]])
  }

  function AddLines(lines: seq<string>, separator: char): Properties {
    if lines == [] then Properties(map[])
    else AddLine(AddLines(lines[..|lines| - 1], separator), lines[|lines| - 1], separator)
  }

  lemma {:induction false} MalformedStays(lines: seq<string>, n: nat, separator: char)
    requires n <= |lines| && AddLines(lines[..n], separator).Malformed?
    ensures AddLines(lines, separator).Malformed?
    decreases |lines| - n
  {
    if n < |lines| {
      assert lines[..n + 1][..n] == lines[..n];
      MalformedStays(lines, n + 1, separator);
    } else {
      assert lines[..n] == lines;
    }
  }

  lemma NoLines(separator: char)
    ensures AddLines([], separator) == Properties(map[])
  {
  }

  /** What one more line does to the lines read so far. */
  lemma NextLine(lines: seq<string>, i: nat, values: map<string, string>, separator: char)
    requires i < |lines| && AddLines(lines[..i], separator) == Properties(values)
    ensures var line := TrimSpace(lines[i]);
            var n := IndexByte(line, separator);
            && (line == "" ==> AddLines(lines[..i + 1], separator) == Properties(values))
            && (line != "" && (n == |line| || n == 0) ==> AddLines(lines, separator).Malformed?)
            && (line != "" && 0 < n < |line| ==>
                  AddLines(lines[..i + 1], separator) == Properties(values[line[..n] := line[n + 1..]]))
  {
    assert lines[..i + 1][..i] == lines[..i];
    if AddLines(lines[..i + 1], separator).Malformed? { MalformedStays(lines, i + 1, separator); }
  }

  /** The line says key, separator, value, white space around it aside. */
  ghost predicate Assigns(line: string, separator: char, key: string, value: string) {
    key != "" && separator !in key && TrimSpace(line) == key + [separator] + value
  }

  ghost predicate AssignsKey(line: string, separator: char, key: string) {
    exists value :: Assigns(line, separator, key, value)
  }

  ghost predicate AssignsSomething(line: string, separator: char) {
    exists key :: AssignsKey(line, separator, key)
  }

  /** Some line assigns the value and no later line assigns the key again. */
  ghost predicate LastAssigns(lines: seq<string>, separator: char, key: string, value: string) {
    exists i ::
      0 <= i < |lines| && Assigns(lines[i], separator, key, value) &&
      forall j | i < j < |lines| :: !AssignsKey(lines[j], separator, key)
  }

  lemma AssignmentSplits(line: string, separator: char, key: string, value: string)
    ensures var t := TrimSpace(line); var n := IndexByte(t, separator);
            Assigns(line, separator, key, value) <==> 0 < n < |t| && key == t[..n] && value == t[n + 1..]
  {
    var t := TrimSpace(line);
    var n := IndexByte(t, separator);
    if Assigns(line, separator, key, value) {
      assert t[|key|] == separator;
      assert t[..|key|] == key && t[|key| + 1..] == value;
    } else if 0 < n < |t| {
      assert t == t[..n] + [separator] + t[n + 1..];
    }
  }

  lemma LineMeans(line: string, separator: char)
    ensures var t := TrimSpace(line); var n := IndexByte(t, separator);
            AssignsSomething(line, separator) <==> 0 < n < |t|
    ensures forall key :: AssignsKey(line, separator, key) <==>
              AssignsSomething(line, separator) && key == TrimSpace(line)[..IndexByte(TrimSpace(line), separator)]
  {
    var t := TrimSpace(line);
    var n := IndexByte(t, separator);
    forall key, value
      ensures Assigns(line, separator, key, value) <==> 0 < n < |t| && key == t[..n] && value == t[n + 1..]
    {
      AssignmentSplits(line, separator, key, value);
    }
    if 0 < n < |t| {
      assert Assigns(line, separator, t[..n], t[n + 1..]);
      assert AssignsKey(line, separator, t[..n]);
    }
  }

  lemma LastAssignsStep(init: seq<string>, line: string, separator: char, key: string, value: string)
    ensures LastAssigns(init + [line], separator, key, value) <==>
            || Assigns(line, separator, key, value)
            || (!AssignsKey(line, separator, key) && LastAssigns(init, separator, key, value))
  {
    var lines := init + [line];
    if LastAssigns(lines, separator, key, value) {
      var i :| 0 <= i < |lines| && Assigns(lines[i], separator, key, value) &&
               forall j | i < j < |lines| :: !AssignsKey(lines[j], separator, key);
      if i < |init| {
        assert !AssignsKey(lines[|init|], separator, key);
        assert forall j | i < j < |init| :: lines[j] == init[j];
      }
    }
    if Assigns(line, separator, key, value) {
      assert lines[|init|] == line;
    } else if !AssignsKey(line, separator, key) && LastAssigns(init, separator, key, value) {
      var i :| 0 <= i < |init| && Assigns(init[i], separator, key, value) &&
               forall j | i < j < |init| :: !AssignsKey(init[j], separator, key);
      assert lines[i] == init[i] && forall j | i < j < |lines| :: lines[j] == if j < |init| then init[j] else line;
    }
  }

  /** Output is well formed when every line is blank or an assignment; then the last assignment of a key wins. */
  lemma {:induction false} PropertiesMean(lines: seq<string>, separator: char)
    ensures AddLines(lines, separator).Properties? <==>
            forall i | 0 <= i < |lines| :: TrimSpace(lines[i]) == "" || AssignsSomething(lines[i], separator)
    ensures forall key, value | AddLines(lines, separator).Properties? ::
              LastAssigns(lines, separator, key, value) <==>
              key in AddLines(lines, separator).values && AddLines(lines, separator).values[key] == value
  {
    hide TrimSpace, Assigns, AssignsKey, AssignsSomething, IndexByte;
    if lines != [] {
      var init, line := lines[..|lines| - 1], lines[|lines| - 1];
      assert lines == init + [line];
      PropertiesMean(init, separator);
      LineMeans(line, separator);
      forall key, value | AddLines(lines, separator).Properties?
        ensures LastAssigns(lines, separator, key, value) <==>
                key in AddLines(lines, separator).values && AddLines(lines, separator).values[key] == value
      {
        LastAssignsStep(init, line, separator, key, value);
        AssignmentSplits(line, separator, key, value);
      }
    }
  }

  lemma LastAssignmentIsUnique(lines: seq<string>, separator: char, key: string, v: string, w: string)
    requires LastAssigns(lines, separator, key, v) && LastAssigns(lines, separator, key, w)
    ensures v == w
  {
    var i :| 0 <= i < |lines| && Assigns(lines[i], separator, key, v) &&
             forall j | i < j < |lines| :: !AssignsKey(lines[j], separator, key);
    var k :| 0 <= k < |lines| && Assigns(lines[k], separator, key, w) &&
             forall j | k < j < |lines| :: !AssignsKey(lines[j], separator, key);
    assert AssignsKey(lines[i], separator, key) && AssignsKey(lines[k], separator, key);
    assert i == k;
    assert v == TrimSpace(lines[i])[|key| + 1..] == w;
  }
}
