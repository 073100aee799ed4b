/** What `systemctl show` prints about a unit, and the main process the identity checks take from it. */
module Systemctl {
  import opened Text
  import opened Contracts
  import opened KeyValues

  /** The errors the identity check tells apart. */
  datatype Failure =
    | DeadlineFailure | CancelledFailure | NamespaceFailure | PermissionFailure | CommandUnavailable | UnexpectedCommand
    | MainPIDParse | ProcessParse | ProcessProvenance | ProcessGone | ServiceNotFound | ServiceParse | OtherFailure

  function ParsedProperties(stdout: string, required: seq<string>): Properties {
    var properties := AddLines(Split(TrimSpace(stdout), '\n'), '=');
    if properties.Properties? && forall key | key in required :: key in properties.values then properties else Malformed
  }

  method ParseSystemctlProperties(stdout: string, required: seq<string>) returns (r: Properties)
    ensures r == ParsedProperties(stdout, required)
  {
    hide TrimSpace, AddLines, IndexByte, Split;
    var lines := Split(TrimSpace(stdout), '\n');
    var properties := map[];
    assert AddLines(lines[..0], '=') == Properties(map[]) by { NoLines('='); }
    var i := 0;
    while i < |lines|
      invariant 0 <= i <= |lines|
      invariant AddLines(lines[..i], '=') == Properties(properties)
    {
      NextLine(lines, i, properties, '=');
      var line := TrimSpace(lines[i]);
      if line != "" {
        var n := IndexByte(line, '=');
        if n == |line| || n == 0 { return Malformed; }
        properties := properties[line[..n] := line[n + 1..]];
      }
      i := i + 1;
    }
    assert lines[..i] == lines;
    var complete := HasAll(properties, required);
    return if complete then Properties(properties) else Malformed;
  }

  /** The loop over the required keys. */
  method HasAll(properties: map<string, string>, required: seq<string>) returns (complete: bool)
    ensures complete <==> forall key | key in required :: key in properties
  {
    var i := 0;
    while i < |required|
      invariant 0 <= i <= |required|
      invariant forall key | key in required[..i] :: key in properties
    {
      if required[i] !in properties { return false; }
      i := i + 1;
    }
    return true;
  }

  // ---- the main process ----

  datatype MainPID = Unusable(failure: Failure) | Usable(pid: int, controlGroup: string)

  const MAIN_PID_PROPERTIES := ["LoadState", "MainPID", "ControlGroup"]

  /** parseSystemctlMainPID. */
  function ParsedMainPID(stdout: string): MainPID {
    var properties := ParsedProperties(stdout, MAIN_PID_PROPERTIES);
    if properties.Malformed? then Unusable(ServiceParse)
    else
      assert "LoadState" in MAIN_PID_PROPERTIES && "MainPID" in MAIN_PID_PROPERTIES && "ControlGroup" in MAIN_PID_PROPERTIES;
      var values := properties.values;
      if values["LoadState"] == "not-found" then Unusable(ServiceNotFound)
      else
        var pid := Atoi(TrimSpace(values["MainPID"]));
        var controlGroup := TrimSpace(values["ControlGroup"]);
        if pid.NotANumber? || pid.value <= 0 || controlGroup == "" then Unusable(MainPIDParse)
        else Usable(pid.value, controlGroup)
  }

  method ParseSystemctlMainPID(stdout: string) returns (r: MainPID)
    ensures r == ParsedMainPID(stdout)
  {
    hide TrimSpace, Atoi, AddLines;
    var properties := ParseSystemctlProperties(stdout, MAIN_PID_PROPERTIES);
    if properties.Malformed? { return Unusable(ServiceParse); }
    assert "LoadState" in MAIN_PID_PROPERTIES && "MainPID" in MAIN_PID_PROPERTIES && "ControlGroup" in MAIN_PID_PROPERTIES;
    if properties.values["LoadState"] == "not-found" { return Unusable(ServiceNotFound); }
    var pid := Atoi(TrimSpace(properties.values["MainPID"]));
    if pid.NotANumber? || pid.value <= 0 { return Unusable(MainPIDParse); }
    var controlGroup := TrimSpace(properties.values["ControlGroup"]);
    if controlGroup == "" { return Unusable(MainPIDParse); }
    return Usable(pid.value, controlGroup);
  }

  /** A usable answer: every line is blank or an assignment, and the last assignments of the three properties give a
      loaded unit, a positive pid and a control group. */
  lemma UsableMeans(stdout: string, pid: int, controlGroup: string)
    ensures ParsedMainPID(stdout) == Usable(pid, controlGroup) <==>
            var lines := Split(TrimSpace(stdout), '\n');
            && (forall i | 0 <= i < |lines| :: TrimSpace(lines[i]) == "" || AssignsSomething(lines[i], '='))
            && (exists load :: LastAssigns(lines, '=', "LoadState", load) && load != "not-found")
            && (exists v :: LastAssigns(lines, '=', "MainPID", v) && Atoi(TrimSpace(v)) == Number(pid)) && pid > 0
            && (exists v :: LastAssigns(lines, '=', "ControlGroup", v) && TrimSpace(v) == controlGroup) && controlGroup != ""
  {
    hide AddLines, LastAssigns, TrimSpace, Atoi, Split, AssignsSomething;
    var lines := Split(TrimSpace(stdout), '\n');
    PropertiesMean(lines, '=');
    var properties := AddLines(lines, '=');
    if properties.Properties? {
      var values := properties.values;
      forall key | key in values ensures LastAssigns(lines, '=', key, values[key]) {}
    }
  }

  /** Every line is blank or an assignment, and the three properties are assigned. */
  ghost predicate Complete(lines: seq<string>) {
    && (forall i | 0 <= i < |lines| :: TrimSpace(lines[i]) == "" || AssignsSomething(lines[i], '='))
    && (exists v :: LastAssigns(lines, '=', "LoadState", v))
    && (exists v :: LastAssigns(lines, '=', "MainPID", v))
    && (exists v :: LastAssigns(lines, '=', "ControlGroup", v))
  }

  lemma CompleteMeans(stdout: string)
    ensures Complete(Split(TrimSpace(stdout), '\n')) <==> ParsedProperties(stdout, MAIN_PID_PROPERTIES).Properties?
    ensures ParsedProperties(stdout, MAIN_PID_PROPERTIES).Properties? ==>
              var values := ParsedProperties(stdout, MAIN_PID_PROPERTIES).values;
              "LoadState" in values &&
              (values["LoadState"] == "not-found" <==>
               LastAssigns(Split(TrimSpace(stdout), '\n'), '=', "LoadState", "not-found"))
  {
    hide AddLines, LastAssigns, TrimSpace, Split, AssignsSomething;
    var lines := Split(TrimSpace(stdout), '\n');
    PropertiesMean(lines, '=');
    assert "LoadState" in MAIN_PID_PROPERTIES && "MainPID" in MAIN_PID_PROPERTIES && "ControlGroup" in MAIN_PID_PROPERTIES;
    if AddLines(lines, '=').Properties? {
      var values := AddLines(lines, '=').values;
      forall key | key in values ensures LastAssigns(lines, '=', key, values[key]) {}
    }
  }

  /** Which error an unusable answer gives: output that is malformed or incomplete, an unknown unit, or no usable id
      or control group. */
  lemma UnusableMeans(stdout: string)
    ensures var lines := Split(TrimSpace(stdout), '\n');
            && (ParsedMainPID(stdout) == Unusable(ServiceParse) <==> !Complete(lines))
            && (ParsedMainPID(stdout) == Unusable(ServiceNotFound) <==>
                Complete(lines) && LastAssigns(lines, '=', "LoadState", "not-found"))
            && (ParsedMainPID(stdout).Unusable? ==>
                  ParsedMainPID(stdout).failure in {ServiceParse, ServiceNotFound, MainPIDParse})
  {
    hide ParsedProperties, Complete, TrimSpace, Atoi;
    CompleteMeans(stdout);
  }

  lemma UsableIsTrimmed(stdout: string, pid: int, controlGroup: string)
    requires ParsedMainPID(stdout) == Usable(pid, controlGroup)
    ensures pid > 0 && controlGroup != "" && TrimSpace(controlGroup) == controlGroup
  {
    hide TrimSpace, Atoi;
    var values := ParsedProperties(stdout, MAIN_PID_PROPERTIES).values;
    TrimSpaceTrims(values["ControlGroup"]);
    TrimmedIsFixed(controlGroup);
  }

  // ---- control groups ----

  predicate CgroupsContain(cgroups: seq<string>, expected: string) {
    TrimSpace(expected) != "" && exists i :: 0 <= i < |cgroups| && TrimSpace(cgroups[i]) == TrimSpace(expected)
  }

  method FindCgroup(cgroups: seq<string>, expected: string) returns (found: bool)
    ensures found <==> CgroupsContain(cgroups, expected)
  {
    var expected' := TrimSpace(expected);
    if expected' == "" { return false; }
    var i := 0;
    while i < |cgroups|
      invariant 0 <= i <= |cgroups|
      invariant forall j | 0 <= j < i :: TrimSpace(cgroups[j]) != expected'
    {
      if TrimSpace(cgroups[i]) == expected' { return true; }
      i := i + 1;
    }
    return false;
  }
}
