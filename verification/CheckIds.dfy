/** Check ids tell checks apart, even when the user-chosen names contain dots. */
module CheckIds {
  import opened Contracts
  import opened Checks

  /** What follows the last dot. */
  function AfterLastDot(s: string): string {
    if s == "" || s[|s| - 1] == '.' then "" else AfterLastDot(s[..|s| - 1]) + [s[|s| - 1]]
  }

  lemma {:induction false} AfterLastDotOf(front: string, tail: string)
    requires '.' !in tail
    ensures AfterLastDot(front + "." + tail) == tail
  {
    var s := front + "." + tail;
    if tail == "" {
      assert s[|s| - 1] == '.';
    } else {
      AfterLastDotOf(front, tail[..|tail| - 1]);
      assert s[..|s| - 1] == front + "." + tail[..|tail| - 1];
      assert tail == tail[..|tail| - 1] + [tail[|tail| - 1]];
    }
  }

  predicate PathKind(kind: string) {
    kind in {"exists", "type", "mode", "owner", "group"}
  }

  predicate SocketKind(kind: string) {
    kind in {"exists", "owner", "group", "mode"}
  }

  predicate ServiceKind(kind: string) {
    kind in {"state", "restart", "run_as.user", "run_as.group", "capabilities"}
  }

  predicate IdentityKind(kind: string) {
    kind in {"uid", "gid", "capabilities.effective", "capabilities.permitted", "capabilities.inheritable",
             "capabilities.bounding", "capabilities.ambient"}
  }

  predicate PlainKind(kind: string) {
    kind in {"exists", "type", "mode", "owner", "group", "state", "restart", "capabilities", "uid", "gid", "namespace"}
  }

  /** The last segment of a kind. */
  function Segment(kind: string): string {
    match kind
    case "run_as.user" => "user"
    case "run_as.group" => "group"
    case "capabilities.effective" => "effective"
    case "capabilities.permitted" => "permitted"
    case "capabilities.inheritable" => "inheritable"
    case "capabilities.bounding" => "bounding"
    case "capabilities.ambient" => "ambient"
    case _ => kind
  }

  lemma PlainKindHasNoDot(kind: string)
    requires PlainKind(kind)
    ensures '.' !in kind && Segment(kind) == kind
  {
  }

  lemma RunAsKindSplits(kind: string)
    requires kind == "run_as.user" || kind == "run_as.group"
    ensures kind == "run_as" + "." + Segment(kind) && '.' !in Segment(kind)
  {
  }

  lemma SplitKindEnds(front: string, head: string, kind: string)
    requires kind == head + "." + Segment(kind) && '.' !in Segment(kind)
    ensures AfterLastDot(front + "." + kind) == Segment(kind)
  {
    hide Segment;
    AfterLastDotOf(front + "." + head, Segment(kind));
    assert front + "." + kind == front + "." + head + "." + Segment(kind);
  }

  lemma KindEndsInSegment(front: string, kind: string)
    requires PathKind(kind) || SocketKind(kind) || ServiceKind(kind) || IdentityKind(kind) || kind == "namespace"
    ensures AfterLastDot(front + "." + kind) == Segment(kind)
  {
    hide AfterLastDot, Segment;
    if PlainKind(kind) {
      PlainKindHasNoDot(kind);
      AfterLastDotOf(front, kind);
    } else if kind == "run_as.user" || kind == "run_as.group" {
      RunAsKindSplits(kind);
      SplitKindEnds(front, "run_as", kind);
    } else {
      CapabilityKindSplits(kind);
      SplitKindEnds(front, "capabilities", kind);
    }
  }

  lemma CapabilityKindSplits(kind: string)
    requires IdentityKind(kind) && kind != "uid" && kind != "gid"
    ensures kind == "capabilities" + "." + Segment(kind) && '.' !in Segment(kind)
  {
  }

  /** Within one domain, equal ids come from equal names and kinds. */
  lemma NamedIsInjective(prefix: string, name: string, kind: string, name': string, kind': string)
    requires Named(prefix, name, kind) == Named(prefix, name', kind')
    requires || (PathKind(kind) && PathKind(kind')) || (SocketKind(kind) && SocketKind(kind'))
             || (ServiceKind(kind) && ServiceKind(kind')) || (IdentityKind(kind) && IdentityKind(kind'))
    ensures name == name' && kind == kind'
  {
    KindEndsInSegment(prefix + name, kind);
    KindEndsInSegment(prefix + name', kind');
    assert Segment(kind) == Segment(kind');
    SegmentsTellKinds(kind, kind');
    var id := Named(prefix, name, kind);
    assert id[|prefix|..|prefix| + |name|] == name;
    assert Named(prefix, name', kind')[|prefix|..|prefix| + |name'|] == name';
  }

  lemma SegmentsTellKinds(kind: string, kind': string)
    requires Segment(kind) == Segment(kind')
    requires || (PathKind(kind) && PathKind(kind')) || (SocketKind(kind) && SocketKind(kind'))
             || (ServiceKind(kind) && ServiceKind(kind')) || (IdentityKind(kind) && IdentityKind(kind'))
    ensures kind == kind'
  {
    if IdentityKind(kind) && IdentityKind(kind') {
      IdentitySegmentsTellKinds(kind, kind');
    } else if ServiceKind(kind) && ServiceKind(kind') {
      ServiceSegmentsTellKinds(kind, kind');
    }
  }

  lemma ServiceSegmentsTellKinds(kind: string, kind': string)
    requires Segment(kind) == Segment(kind') && ServiceKind(kind) && ServiceKind(kind')
    ensures kind == kind'
  {
  }

  lemma IdentitySegmentsTellKinds(kind: string, kind': string)
    requires Segment(kind) == Segment(kind') && IdentityKind(kind) && IdentityKind(kind')
    ensures kind == kind'
  {
  }

  lemma PreflightEnds(id: string)
    requires id in {PATH_NAMESPACE_CHECK_ID, SOCKET_NAMESPACE_CHECK_ID, SERVICE_NAMESPACE_CHECK_ID}
    ensures AfterLastDot(id) == "namespace"
  {
    hide AfterLastDot;
    var front := if id == PATH_NAMESPACE_CHECK_ID then "path.__preflight__"
                 else if id == SOCKET_NAMESPACE_CHECK_ID then "socket.__preflight__" else "service.__preflight__";
    assert id == front + "." + "namespace";
    PlainKindHasNoDot("namespace");
    AfterLastDotOf(front, "namespace");
  }

  lemma SegmentIsNotNamespace(kind: string)
    requires PathKind(kind) || SocketKind(kind) || ServiceKind(kind) || IdentityKind(kind)
    ensures Segment(kind) != "namespace"
  {
  }

  /** A preflight id is no check's id. */
  lemma PreflightIsNoNamedCheck(id: string, prefix: string, name: string, kind: string)
    requires id in {PATH_NAMESPACE_CHECK_ID, SOCKET_NAMESPACE_CHECK_ID, SERVICE_NAMESPACE_CHECK_ID}
    requires PathKind(kind) || SocketKind(kind) || ServiceKind(kind) || IdentityKind(kind)
    ensures Named(prefix, name, kind) != id
  {
    hide AfterLastDot, Segment, PathKind, SocketKind, ServiceKind, IdentityKind;
    KindEndsInSegment(prefix + name, kind);
    SegmentIsNotNamespace(kind);
    PreflightEnds(id);
  }
}
