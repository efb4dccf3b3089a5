/** Structured errors that cross process boundaries: any error tree becomes a
    bounded report, and a report becomes an error again. */
module AppError {
  import opened Collections
  import opened Wrappers

  const MAX_DEPTH: nat := 8
  const MAX_COUNT: nat := 32

  datatype Code =
    | UsageError
    | RootRequired
    | ConfigInvalid
    | ConfigRestartRequired
    | ServiceNotInstalled
    | ServiceNotRunning
    | ServiceOperationBusy
    | ServiceStartTimeout
    | ServiceStopTimeout
    | ServiceUnreachable
    | ServiceProtocolTooOld
    | ReloadRejected
    | ReloadTimeout
    | ReloadRequestMismatch
    | ReloadDigestMismatch
    | ReloadRequestConflict
    | RollbackIncomplete
    | UnsafeFile
    | InternalError
    | UnknownCode(text: string)

  /** The wire form of a code. */
  function Text(code: Code): string {
    match code
    case UsageError => "USAGE_ERROR"
    case RootRequired => "ROOT_REQUIRED"
    case ConfigInvalid => "CONFIG_INVALID"
    case ConfigRestartRequired => "CONFIG_RESTART_REQUIRED"
    case ServiceNotInstalled => "SERVICE_NOT_INSTALLED"
    case ServiceNotRunning => "SERVICE_NOT_RUNNING"
    case ServiceOperationBusy => "SERVICE_OPERATION_BUSY"
    case ServiceStartTimeout => "SERVICE_START_TIMEOUT"
    case ServiceStopTimeout => "SERVICE_STOP_TIMEOUT"
    case ServiceUnreachable => "SERVICE_UNREACHABLE"
    case ServiceProtocolTooOld => "SERVICE_PROTOCOL_TOO_OLD"
    case ReloadRejected => "RELOAD_REJECTED"
    case ReloadTimeout => "RELOAD_TIMEOUT"
    case ReloadRequestMismatch => "RELOAD_REQUEST_MISMATCH"
    case ReloadDigestMismatch => "RELOAD_DIGEST_MISMATCH"
    case ReloadRequestConflict => "RELOAD_REQUEST_CONFLICT"
    case RollbackIncomplete => "ROLLBACK_INCOMPLETE"
    case UnsafeFile => "UNSAFE_FILE"
    case InternalError => "INTERNAL_ERROR"
    case UnknownCode(text) => text
  }

  predicate Retryable(code: Code) {
    || code.ServiceNotRunning? || code.ServiceOperationBusy? || code.ServiceStartTimeout?
    || code.ServiceStopTimeout? || code.ServiceUnreachable? || code.ReloadTimeout?
  }

  function Normalized(code: Code): Code {
    if code.UnknownCode? then InternalError else code
  }

  datatype Key =
    | ActualConfigDigest
    | EffectiveUID
    | ExpectedConfigDigest
    | HolderOperation
    | HolderOperationID
    | HolderPID
    | OperationID
    | Phase
    | ReloadRequestID
    | RollbackOf
    | SocketPath
    | StartedAt
    | OtherKey(name: string)

  /** A detail is a scalar or something that must not leave the process. */
  datatype Detail = Scalar(text: string) | Unsafe

  type Details = map<Key, Detail>

  function Sanitize(details: Details): Details {
    map key | key in details && !key.OtherKey? && details[key].Scalar? :: details[key]
  }

  /** An error value. Wrapped is any error with a single cause, Joined one with
      several; Typed is the package's own error. */
  datatype Err =
    | Nil
    | Plain(message: string)
    | Wrapped(message: string, inner: Err)
    | Joined(children: seq<Err>)
    | Typed(code: Code, operation: string, message: string, retryable: bool, details: Details, cause: Err)

  datatype Info = Info(code: Code, operation: string, message: string, retryable: bool, details: Details, causes: seq<Info>)

  function Leaf(message: string): Info {
    Info(InternalError, "", message, false, map[], [])
  }

  const TOO_DEEP: Info := Leaf("error cause depth exceeded")

  /** The first typed error that unwrapping meets. */
  function FindTyped(e: Err): (r: Option<Err>)
    ensures r.Some? ==> r.value.Typed?
  {
    match e
    case Typed(_, _, _, _, _, _) => Some(e)
    case Wrapped(_, inner) => FindTyped(inner)
    case Joined(children) => FindFirst(children)
    case _ => None
  }

  function FindFirst(children: seq<Err>): (r: Option<Err>)
    ensures r.Some? ==> r.value.Typed?
  {
    if children == [] then None
    else
      var first := FindTyped(children[0]);
      if first.Some? then first else FindFirst(children[1..])
  }

  // ---------------------------------------------------------------------
  // From an error to a report, with one budget for all nodes

  function InfoAt(e: Err, depth: nat, remaining: nat): (r: (Info, nat))
    requires depth <= MAX_DEPTH && remaining > 0
    decreases MAX_DEPTH - depth, 0
  {
    var left := remaining - 1;
    if e.Nil? then (Leaf("unknown error"), left)
    else if depth >= MAX_DEPTH then (TOO_DEEP, left)
    else if e.Joined? then
      var r := CausesAt(e.children, depth + 1, left);
      (Info(InternalError, "", "multiple errors occurred", false, map[], r.0), r.1)
    else match FindTyped(e)
      case Some(t) =>
        var code := Normalized(t.code);
        var r := if t.cause.Joined? then CausesAt(t.cause.children, depth + 1, left) else ([], left);
        (Info(code, t.operation, if t.message == "" then Text(code) else t.message, t.retryable, Sanitize(t.details), r.0), r.1)
      case None => (Leaf(e.message), left)
  }

  /** The reports of causes, in order, until the budget is used up. */
  function CausesAt(causes: seq<Err>, depth: nat, remaining: nat): (r: (seq<Info>, nat))
    requires depth <= MAX_DEPTH
    decreases MAX_DEPTH - depth, 1, |causes|
  {
    if causes == [] then ([], remaining)
    else
      var front, last := CausesAt(causes[..|causes| - 1], depth, remaining), causes[|causes| - 1];
      if front.1 == 0 || last.Nil? then front
      else
        var r := InfoAt(last, depth, front.1);
        (front.0 + [r.0], r.1)
  }

  function InfoOf(e: Err): Info {
    InfoAt(e, 0, MAX_COUNT).0
  }

  lemma {:induction false} SpentBudget(causes: seq<Err>, depth: nat, remaining: nat, n: nat)
    requires depth <= MAX_DEPTH && n <= |causes| && CausesAt(causes[..n], depth, remaining).1 == 0
    ensures CausesAt(causes, depth, remaining) == CausesAt(causes[..n], depth, remaining)
    decreases |causes| - n
  {
    if n == |causes| {
      assert causes[..n] == causes;
    } else {
      assert causes[..n + 1][..n] == causes[..n];
      SpentBudget(causes, depth, remaining, n + 1);
    }
  }

  method CauseInfos(causes: seq<Err>, depth: nat, remaining: nat) returns (result: seq<Info>, left: nat)
    requires depth <= MAX_DEPTH
    ensures (result, left) == CausesAt(causes, depth, remaining)
  {
    result, left := [], remaining;
    for i := 0 to |causes|
      invariant (result, left) == CausesAt(causes[..i], depth, remaining)
    {
      if left == 0 {
        SpentBudget(causes, depth, remaining, i);
        return;
      }
      assert causes[..i + 1][..i] == causes[..i];
      if !causes[i].Nil? {
        var r := InfoAt(causes[i], depth, left);
        result, left := result + [r.0], r.1;
      }
    }
    assert causes[..|causes|] == causes;
  }

  // ---------------------------------------------------------------------
  // Sizes and validity of reports

  function Size(info: Info): nat {
    1 + Sizes(info.causes)
  }

  function Sizes(infos: seq<Info>): nat {
    if infos == [] then 0 else Sizes(infos[..|infos| - 1]) + Size(infos[|infos| - 1])
  }

  predicate NodeOk(info: Info) {
    && !info.code.UnknownCode? && info.message != ""
    && info.retryable == Retryable(info.code)
    && |info.details| == |Sanitize(info.details)|
  }

  /** validateInfo: a counter runs through the whole tree. None is an error. */
  function ValidateAt(info: Info, depth: nat, count: nat): Option<nat>
    decreases info, 0
  {
    if count + 1 > MAX_COUNT || depth > MAX_DEPTH || !NodeOk(info) then None
    else ValidateAll(info.causes, depth + 1, count + 1)
  }

  function ValidateAll(infos: seq<Info>, depth: nat, count: nat): Option<nat>
    decreases infos, 1
  {
    if infos == [] then Some(count)
    else match ValidateAll(infos[..|infos| - 1], depth, count)
      case None => None
      case Some(c) => ValidateAt(infos[|infos| - 1], depth, c)
  }

  predicate ValidInfo(info: Info) {
    ValidateAt(info, 0, 0).Some?
  }

  /** What validity means, without a counter. */
  predicate WellFormed(info: Info, depth: nat)
    decreases info
  {
    depth <= MAX_DEPTH && NodeOk(info) && forall cause :: cause in info.causes ==> WellFormed(cause, depth + 1)
  }

  predicate AllWellFormed(infos: seq<Info>, depth: nat) {
    forall info :: info in infos ==> WellFormed(info, depth)
  }

  lemma {:induction false} ValidateMeans(info: Info, depth: nat, count: nat)
    ensures ValidateAt(info, depth, count) ==
            if WellFormed(info, depth) && count + Size(info) <= MAX_COUNT then Some(count + Size(info)) else None
    decreases info, 0
  {
    hide NodeOk;
    ValidateAllMeans(info.causes, depth + 1, count + 1);
  }

  lemma {:induction false} ValidateAllMeans(infos: seq<Info>, depth: nat, count: nat)
    ensures count <= MAX_COUNT ==>
              ValidateAll(infos, depth, count) ==
              if AllWellFormed(infos, depth) && count + Sizes(infos) <= MAX_COUNT then Some(count + Sizes(infos)) else None
    decreases infos, 1
  {
    hide NodeOk, WellFormed;
    if infos != [] && count <= MAX_COUNT {
      var front, last := infos[..|infos| - 1], infos[|infos| - 1];
      ValidateAllMeans(front, depth, count);
      assert infos == front + [last];
      assert AllWellFormed(infos, depth) <==> AllWellFormed(front, depth) && WellFormed(last, depth);
      if count + Sizes(front) <= MAX_COUNT {
        ValidateMeans(last, depth, count + Sizes(front));
      }
    }
  }

  lemma ValidIff(info: Info)
    ensures ValidInfo(info) <==> WellFormed(info, 0) && Size(info) <= MAX_COUNT
  {
    ValidateMeans(info, 0, 0);
  }

  // ---------------------------------------------------------------------
  // Every report is valid

  /** Errors as the package's constructors and the standard library build them,
      with messages that are not empty. */
  predicate Constructed(e: Err)
    decreases e
  {
    match e
    case Nil => true
    case Plain(message) => message != ""
    case Wrapped(message, inner) => message != "" && Constructed(inner)
    case Joined(children) => forall child :: child in children ==> Constructed(child)
    case Typed(code, _, _, retryable, _, cause) => retryable == Retryable(Normalized(code)) && Constructed(cause)
  }

  lemma {:induction false} TypedIsConstructed(e: Err)
    requires Constructed(e) && FindTyped(e).Some?
    ensures Constructed(FindTyped(e).value)
    decreases e, 0
  {
    match e
    case Typed(_, _, _, _, _, _) =>
    case Wrapped(_, inner) => TypedIsConstructed(inner);
    case Joined(children) => FirstIsConstructed(children);
  }

  lemma {:induction false} FirstIsConstructed(children: seq<Err>)
    requires (forall child :: child in children ==> Constructed(child)) && FindFirst(children).Some?
    ensures Constructed(FindFirst(children).value)
    decreases children, 1
  {
    if FindTyped(children[0]).Some? {
      assert children[0] in children;
      TypedIsConstructed(children[0]);
    } else {
      assert forall child :: child in children[1..] ==> child in children;
      FirstIsConstructed(children[1..]);
    }
  }

  lemma SanitizeTwice(details: Details)
    ensures Sanitize(Sanitize(details)) == Sanitize(details)
  {
  }

  /** The deepest level holds nothing but the placeholder. */
  predicate Bottomed(info: Info, depth: nat)
    decreases info
  {
    && (depth >= MAX_DEPTH ==> info == TOO_DEEP)
    && forall cause :: cause in info.causes ==> Bottomed(cause, depth + 1)
  }

  predicate Sound(info: Info, depth: nat) {
    WellFormed(info, depth) && Bottomed(info, depth)
  }

  lemma LeafIsSound(message: string, depth: nat)
    requires message != "" && depth <= MAX_DEPTH
    ensures NodeOk(Leaf(message)) && WellFormed(Leaf(message), depth) && Size(Leaf(message)) == 1
    ensures depth < MAX_DEPTH || Leaf(message) == TOO_DEEP ==> Bottomed(Leaf(message), depth)
  {
    var details: Details := map[];
    assert Sanitize(details) == details;
  }

  lemma TextIsNotEmpty(code: Code)
    requires !code.UnknownCode?
    ensures Text(code) != ""
  {
    assert |Text(code)| > 0;
  }

  lemma NodeIsOk(code: Code, operation: string, message: string, retryable: bool, details: Details, causes: seq<Info>)
    requires retryable == Retryable(Normalized(code))
    ensures var c := Normalized(code);
            NodeOk(Info(c, operation, if message == "" then Text(c) else message, retryable, Sanitize(details), causes))
  {
    TextIsNotEmpty(Normalized(code));
    SanitizeTwice(details);
  }

  /** A node over sound causes is sound. */
  lemma NodeIsSound(info: Info, depth: nat)
    requires NodeOk(info) && depth < MAX_DEPTH
    requires forall cause :: cause in info.causes ==> Sound(cause, depth + 1)
    ensures Sound(info, depth)
  {
    hide NodeOk;
  }

  lemma {:induction false} InfoIsSound(e: Err, depth: nat, remaining: nat)
    requires Constructed(e) && depth <= MAX_DEPTH && remaining > 0 && (e.Nil? ==> depth == 0)
    ensures var r := InfoAt(e, depth, remaining); Sound(r.0, depth) && Size(r.0) + r.1 == remaining
    decreases MAX_DEPTH - depth, 0
  {
    hide NodeOk, WellFormed, Bottomed, Constructed, Sanitize, Normalized, Retryable;
    var left := remaining - 1;
    if e.Nil? {
      LeafIsSound("unknown error", depth);
    } else if depth >= MAX_DEPTH {
      LeafIsSound("error cause depth exceeded", depth);
    } else if e.Joined? {
      ChildrenAreConstructed(e);
      CausesAreSound(e.children, depth + 1, left);
      JoinedNodeIsOk(CausesAt(e.children, depth + 1, left).0);
      NodeIsSound(InfoAt(e, depth, remaining).0, depth);
    } else {
      match FindTyped(e)
      case Some(t) =>
        TypedIsConstructed(e);
        TypedParts(t);
        if t.cause.Joined? {
          ChildrenAreConstructed(t.cause);
          CausesAreSound(t.cause.children, depth + 1, left);
        }
        var r := InfoAt(e, depth, remaining);
        NodeIsOk(t.code, t.operation, t.message, t.retryable, t.details, r.0.causes);
        NodeIsSound(r.0, depth);
      case None =>
        UntypedHasMessage(e);
        LeafIsSound(e.message, depth);
    }
  }

  lemma ChildrenAreConstructed(e: Err)
    requires Constructed(e) && e.Joined?
    ensures forall child :: child in e.children ==> Constructed(child)
  {
  }

  lemma TypedParts(e: Err)
    requires Constructed(e) && e.Typed?
    ensures e.retryable == Retryable(Normalized(e.code)) && Constructed(e.cause)
  {
  }

  lemma UntypedHasMessage(e: Err)
    requires Constructed(e) && !e.Nil? && !e.Joined? && FindTyped(e).None?
    ensures (e.Plain? || e.Wrapped?) && e.message != ""
  {
  }

  lemma JoinedNodeIsOk(causes: seq<Info>)
    ensures NodeOk(Info(InternalError, "", "multiple errors occurred", false, map[], causes))
  {
    var details: Details := map[];
    assert Sanitize(details) == details;
  }

  lemma {:induction false} CausesAreSound(causes: seq<Err>, depth: nat, remaining: nat)
    requires 0 < depth <= MAX_DEPTH && forall cause :: cause in causes ==> Constructed(cause)
    ensures var r := CausesAt(causes, depth, remaining);
            (forall info :: info in r.0 ==> Sound(info, depth)) && Sizes(r.0) + r.1 == remaining
    decreases MAX_DEPTH - depth, 1, |causes|
  {
    hide Constructed, Sound;
    if causes != [] {
      var rest, last := causes[..|causes| - 1], causes[|causes| - 1];
      assert causes == rest + [last];
      CausesAreSound(rest, depth, remaining);
      var front := CausesAt(rest, depth, remaining);
      if front.1 != 0 && !last.Nil? {
        InfoIsSound(last, depth, front.1);
        var r := InfoAt(last, depth, front.1);
        assert (front.0 + [r.0])[..|front.0|] == front.0;
      }
    }
  }

  /** Whatever the error, its report has at most 32 nodes and depth 8, and the
      receiving side accepts it. */
  lemma ReportsAreValid(e: Err)
    requires Constructed(e)
    ensures Size(InfoOf(e)) <= MAX_COUNT && WellFormed(InfoOf(e), 0) && ValidInfo(InfoOf(e))
    ensures Bottomed(InfoOf(e), 0)
  {
    hide NodeOk, WellFormed, Bottomed, Constructed, ValidInfo;
    InfoIsSound(e, 0, MAX_COUNT);
    ValidIff(InfoOf(e));
  }

  // ---------------------------------------------------------------------
  // From a report to an error and back

  /** FromInfo, which validates again at every level. */
  function FromInfo(info: Info): Err
    decreases info, 0
  {
    if !ValidInfo(info) then
      Typed(ServiceProtocolTooOld, "service.protocol", "received an invalid structured service error", false, map[],
            Plain("invalid"))
    else
      Typed(info.code, info.operation, info.message, info.retryable, Sanitize(info.details),
            if info.causes == [] then Nil else Joined(FromInfos(info.causes)))
  }

  function FromInfos(infos: seq<Info>): (r: seq<Err>)
    ensures |r| == |infos|
    decreases infos, 1
  {
    seq(|infos|, i requires 0 <= i < |infos| => FromInfo(infos[i]))
  }

  /** A report whose deepest level was replaced by placeholders. */
  function Cut(info: Info, depth: nat): Info
    decreases info, 0
  {
    if depth >= MAX_DEPTH then TOO_DEEP else info.(causes := Cuts(info.causes, depth + 1))
  }

  function Cuts(infos: seq<Info>, depth: nat): (r: seq<Info>)
    ensures |r| == |infos|
    decreases infos, 1
  {
    seq(|infos|, i requires 0 <= i < |infos| => Cut(infos[i], depth))
  }

  lemma {:induction false} Shallower(info: Info, depth: nat)
    requires WellFormed(info, depth + 1)
    ensures WellFormed(info, depth)
    decreases info
  {
    hide NodeOk;
    forall cause | cause in info.causes
      ensures WellFormed(cause, depth + 1)
    {
      Shallower(cause, depth + 1);
    }
  }

  lemma {:induction false} ToTheTop(info: Info, depth: nat)
    requires WellFormed(info, depth)
    ensures WellFormed(info, 0)
    decreases depth
  {
    hide WellFormed;
    if depth > 0 {
      Shallower(info, depth - 1);
      ToTheTop(info, depth - 1);
    }
  }

  /** A part of a valid report is valid, so every level is rebuilt. */
  lemma PartIsValid(info: Info, depth: nat)
    requires WellFormed(info, depth) && Size(info) <= MAX_COUNT
    ensures ValidInfo(info)
    ensures FromInfo(info) == Typed(info.code, info.operation, info.message, info.retryable, Sanitize(info.details),
                                    if info.causes == [] then Nil else Joined(FromInfos(info.causes)))
  {
    hide NodeOk, WellFormed, Sanitize;
    ToTheTop(info, depth);
    ValidIff(info);
    hide ValidInfo;
  }

  lemma DetailsAreKept(details: Details)
    requires |details| == |Sanitize(details)|
    ensures Sanitize(details) == details
  {
    var kept := Sanitize(details);
    assert kept.Keys <= details.Keys;
    assert |kept| == |kept.Keys| && |details| == |details.Keys|;
    SameSizeSubset(kept.Keys, details.Keys);
  }

  lemma KnownNode(info: Info)
    requires NodeOk(info)
    ensures Normalized(info.code) == info.code && info.message != "" && Sanitize(Sanitize(info.details)) == info.details
  {
    DetailsAreKept(info.details);
  }

  /** Encoding a rebuilt report again changes only its deepest level. */
  lemma {:induction false} RoundTripAt(info: Info, depth: nat, remaining: nat)
    requires WellFormed(info, depth) && Size(info) <= remaining <= MAX_COUNT
    ensures InfoAt(FromInfo(info), depth, remaining) == (Cut(info, depth), remaining - Size(info))
    decreases info, 0
  {
    hide NodeOk, WellFormed, FromInfo, Sanitize, Normalized, ValidInfo, Text, Cuts, FromInfos;
    PartIsValid(info, depth);
    NodeOfWellFormed(info, depth);
    KnownNode(info);
    if depth < MAX_DEPTH {
      CausesRoundTrip(info.causes, depth + 1, remaining - 1);
      assert info.causes == [] ==> Cuts(info.causes, depth + 1) == [];
    } else {
      DeepNodesAreLeaves(info, depth);
    }
  }

  lemma NodeOfWellFormed(info: Info, depth: nat)
    requires WellFormed(info, depth)
    ensures depth <= MAX_DEPTH && NodeOk(info) && AllWellFormed(info.causes, depth + 1)
  {
  }

  lemma CauseIsDeeper(info: Info, depth: nat, cause: Info)
    requires WellFormed(info, depth) && cause in info.causes
    ensures depth < MAX_DEPTH && WellFormed(cause, depth + 1)
  {
    assert WellFormed(cause, depth + 1);
  }

  lemma DeepNodesAreLeaves(info: Info, depth: nat)
    requires WellFormed(info, depth) && depth >= MAX_DEPTH
    ensures info.causes == [] && Size(info) == 1
  {
    hide WellFormed;
    if info.causes != [] {
      CauseIsDeeper(info, depth, info.causes[0]);
    }
  }

  lemma {:induction false} CausesRoundTrip(infos: seq<Info>, depth: nat, remaining: nat)
    requires depth <= MAX_DEPTH && AllWellFormed(infos, depth) && Sizes(infos) <= remaining <= MAX_COUNT
    ensures CausesAt(FromInfos(infos), depth, remaining) == (Cuts(infos, depth), remaining - Sizes(infos))
    decreases infos, 1
  {
    hide WellFormed, FromInfo, Cut, Size, Sizes, Cuts, FromInfos, CausesAt, InfoAt, AllWellFormed;
    if infos == [] {
      NoCauses(depth, remaining);
    } else {
      var front, last := infos[..|infos| - 1], infos[|infos| - 1];
      assert infos == front + [last];
      Parts(front, last, depth);
      CausesRoundTrip(front, depth, remaining);
      NeverNil(last);
      RoundTripAt(last, depth, remaining - Sizes(front));
      ReportOneMore(FromInfos(front), FromInfo(last), depth, remaining);
    }
  }

  lemma NoCauses(depth: nat, remaining: nat)
    requires depth <= MAX_DEPTH
    ensures CausesAt(FromInfos([]), depth, remaining) == (Cuts([], depth), remaining) && Sizes([]) == 0
  {
    assert FromInfos([]) == [] && Cuts([], depth) == [];
  }

  lemma Parts(front: seq<Info>, last: Info, depth: nat)
    ensures AllWellFormed(front + [last], depth) ==> AllWellFormed(front, depth) && WellFormed(last, depth)
    ensures Sizes(front + [last]) == Sizes(front) + Size(last) && Size(last) > 0
    ensures FromInfos(front + [last]) == FromInfos(front) + [FromInfo(last)]
    ensures Cuts(front + [last], depth) == Cuts(front, depth) + [Cut(last, depth)]
  {
    hide FromInfo, Cut, WellFormed;
    assert (front + [last])[..|front + [last]| - 1] == front;
  }

  lemma ReportOneMore(front: seq<Err>, last: Err, depth: nat, remaining: nat)
    requires depth <= MAX_DEPTH && !last.Nil? && CausesAt(front, depth, remaining).1 > 0
    ensures var r := CausesAt(front, depth, remaining);
            var i := InfoAt(last, depth, r.1);
            CausesAt(front + [last], depth, remaining) == (r.0 + [i.0], i.1)
  {
    hide InfoAt;
    assert (front + [last])[..|front + [last]| - 1] == front;
  }

  lemma NeverNil(info: Info)
    ensures !FromInfo(info).Nil?
  {
    hide ValidInfo;
  }

  lemma BottomedByIndex(info: Info, depth: nat)
    requires depth < MAX_DEPTH
    ensures Bottomed(info, depth) <==> forall i :: 0 <= i < |info.causes| ==> Bottomed(info.causes[i], depth + 1)
  {
    if forall i :: 0 <= i < |info.causes| ==> Bottomed(info.causes[i], depth + 1) {
      forall cause | cause in info.causes
        ensures Bottomed(cause, depth + 1)
      {
        var i :| 0 <= i < |info.causes| && info.causes[i] == cause;
      }
    } else {
      var i :| 0 <= i < |info.causes| && !Bottomed(info.causes[i], depth + 1);
      assert info.causes[i] in info.causes;
    }
  }

  lemma {:induction false} CutIsSameIff(info: Info, depth: nat)
    requires WellFormed(info, depth)
    ensures Cut(info, depth) == info <==> Bottomed(info, depth)
    decreases info
  {
    hide NodeOk, WellFormed;
    if depth < MAX_DEPTH {
      forall i | 0 <= i < |info.causes|
        ensures Cut(info.causes[i], depth + 1) == info.causes[i] <==> Bottomed(info.causes[i], depth + 1)
      {
        CauseIsDeeper(info, depth, info.causes[i]);
        CutIsSameIff(info.causes[i], depth + 1);
      }
      assert Cut(info, depth) == info <==> Cuts(info.causes, depth + 1) == info.causes;
      var cuts := Cuts(info.causes, depth + 1);
      assert forall i :: 0 <= i < |cuts| ==> cuts[i] == Cut(info.causes[i], depth + 1);
      assert cuts == info.causes <==> forall i :: 0 <= i < |cuts| ==> cuts[i] == info.causes[i];
      BottomedByIndex(info, depth);
    } else {
      DeepNodesAreLeaves(info, depth);
    }
  }

  /** For every report that the receiving side accepts: the round trip is exact
      if and only if its eighth level holds nothing but the placeholder. */
  lemma RoundTripIff(info: Info)
    requires ValidInfo(info)
    ensures InfoOf(FromInfo(info)) == info <==> Bottomed(info, 0)
  {
    ValidIff(info);
    hide ValidInfo, NodeOk, WellFormed, Bottomed, FromInfo, Cut;
    RoundTripAt(info, 0, MAX_COUNT);
    CutIsSameIff(info, 0);
  }

  /** The report of any constructed error survives the round trip, truncated or
      not. */
  lemma ReportsRoundTrip(e: Err)
    requires Constructed(e)
    ensures InfoOf(FromInfo(InfoOf(e))) == InfoOf(e)
  {
    hide ValidInfo, NodeOk, WellFormed, Bottomed, FromInfo, Constructed, InfoOf;
    ReportsAreValid(e);
    RoundTripIff(InfoOf(e));
  }
}
