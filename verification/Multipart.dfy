/** One multipart upload while its part responses arrive: the callback of every part, cut into the
    atomic operations it performs, interleaved in any way. */
module Multipart {
  import opened Options

  type Tag = string

  /** How the request of a message ended. */
  datatype Outcome = Ok(tag: Tag) | Failed

  /** `MultipartUpload::State`. */
  datatype UploadState = Default | Sending | Processing | Validating | Aborted

  /** The request in `messages[parts]` that ends the upload. */
  datatype Final = CompleteRequest(eTags: seq<Tag>) | AbortRequest

  datatype Upload = Upload(
    parts: nat, eTags: seq<Tag>, outstanding: int, state: UploadState, errorMessageId: nat, final: Option<Final>)

  /** The next atomic operation of one part callback. */
  datatype Pc =
    | Waiting                     // the response has not arrived
    | MarkAborted                 // errorMessageId is stored, state = Aborted comes next
    | Count                       // outstanding.fetch_sub(1)
    | Decide                      // was last: load state
    | Prepare(complete: bool)     // store messages[parts]
    | Announce                    // state = Validating
    | Done(last: bool)

  /** `pcs[i]` is the callback of part i + 1. */
  datatype State = State(up: Upload, pcs: seq<Pc>)

  function NewUpload(parts: nat): Upload {
    Upload(parts, seq(parts, _ => ""), parts, Default, 0, None)
  }

  /** All part requests are on their way. */
  function Start(parts: nat): State {
    State(NewUpload(parts).(state := Processing), seq(parts, _ => Waiting))
  }

  ghost predicate Shape(s: State, res: seq<Outcome>) {
    |s.pcs| == s.up.parts == |res| == |s.up.eTags|
  }

  /** One atomic operation of the callback of part i + 1, whose response ended as `res[i]`. */
  function Next(s: State, res: seq<Outcome>, i: nat): (s': State)
    requires |s.pcs| == |res| == |s.up.eTags|
    ensures |s'.pcs| == |s.pcs| && |s'.up.eTags| == |s.up.eTags|
  {
    if i >= |s.pcs| then s else
      var up := s.up;
      match s.pcs[i]
      case Waiting =>
        (match res[i]
         case Failed => State(up.(errorMessageId := i), s.pcs[i := MarkAborted])
         case Ok(tag) => State(up.(eTags := up.eTags[i := tag]), s.pcs[i := Count]))
      case MarkAborted => State(up.(state := Aborted), s.pcs[i := Count])
      case Count =>
        State(up.(outstanding := up.outstanding - 1), s.pcs[i := if up.outstanding == 1 then Decide else Done(false)])
      case Decide => State(up, s.pcs[i := Prepare(up.state != Aborted)])
      case Prepare(complete) =>
        State(up.(final := Some(if complete then CompleteRequest(up.eTags) else AbortRequest)), s.pcs[i := Announce])
      case Announce => State(up.(state := Validating), s.pcs[i := Done(true)])
      case Done(_) => s
  }

  function Run(s: State, res: seq<Outcome>, steps: seq<nat>): (s': State)
    requires |s.pcs| == |res| == |s.up.eTags|
    ensures |s'.pcs| == |s.pcs| && |s'.up.eTags| == |s.up.eTags|
    decreases |steps|
  {
    if steps == [] then s else Next(Run(s, res, steps[..|steps| - 1]), res, steps[|steps| - 1])
  }

  /** The whole callback of part i + 1 when nothing interferes. */
  function PartDone(up: Upload, i: nat, outcome: Outcome): Upload
    requires i < |up.eTags|
  {
    var stored := match outcome
      case Failed => up.(errorMessageId := i, state := Aborted)
      case Ok(tag) => up.(eTags := up.eTags[i := tag]);
    var counted := stored.(outstanding := up.outstanding - 1);
    if up.outstanding != 1 then counted
    else counted.(
      final := Some(if counted.state != Aborted then CompleteRequest(counted.eTags) else AbortRequest),
      state := Validating)
  }

  // ---------------------------------------------------------------------------------------------
  // What every step keeps
  // ---------------------------------------------------------------------------------------------

  predicate Counted(pc: Pc) {
    pc.Decide? || pc.Prepare? || pc.Announce? || pc.Done?
  }

  /** The callback that saw the countdown reach its last part. */
  predicate Last(pc: Pc) {
    pc.Decide? || pc.Prepare? || pc.Announce? || pc == Done(true)
  }

  function CountedParts(pcs: seq<Pc>): set<nat> {
    set i: nat | i < |pcs| && Counted(pcs[i])
  }

  predicate AllOk(res: seq<Outcome>) {
    forall i :: 0 <= i < |res| ==> res[i].Ok?
  }

  function Tags(res: seq<Outcome>): seq<Tag>
    requires AllOk(res)
  {
    seq(|res|, i requires 0 <= i < |res| => res[i].tag)
  }

  /** What the final request has to be. */
  ghost predicate RightFinal(final: Final, res: seq<Outcome>) {
    if AllOk(res) then final == CompleteRequest(Tags(res)) else final == AbortRequest
  }

  ghost predicate PartOk(s: State, res: seq<Outcome>, i: nat)
    requires Shape(s, res) && i < |res|
  {
    var pc := s.pcs[i];
    && (pc.MarkAborted? ==> res[i].Failed?)
    && (!pc.Waiting? && res[i].Ok? ==> s.up.eTags[i] == res[i].tag)
    && (!pc.Waiting? && !pc.MarkAborted? && res[i].Failed? ==> s.up.state == Aborted || s.up.state == Validating)
    && (!pc.Waiting? && res[i].Failed? ==>
          s.up.errorMessageId < |res| && res[s.up.errorMessageId].Failed? && !s.pcs[s.up.errorMessageId].Waiting?)
    && (pc.Prepare? ==> pc.complete == AllOk(res))
    && (pc.Announce? || pc == Done(true) ==> s.up.final.Some? && RightFinal(s.up.final.value, res))
    && (Last(pc) ==> s.up.outstanding == 0)
    && (pc == Done(true) <==> Last(pc) && s.up.state == Validating)
  }

  ghost predicate Inv(s: State, res: seq<Outcome>) {
    && Shape(s, res)
    && s.up.outstanding == |res| - |CountedParts(s.pcs)|
    && (forall i: nat :: i < |res| ==> PartOk(s, res, i))
    && (forall i, j :: 0 <= i < |res| && 0 <= j < |res| && Last(s.pcs[i]) && Last(s.pcs[j]) ==> i == j)
    && (s.up.outstanding == 0 && |res| > 0 ==> exists i :: 0 <= i < |res| && Last(s.pcs[i]))
    && (s.up.state == Processing || s.up.state == Aborted || s.up.state == Validating)
    && (s.up.state == Aborted ==> !AllOk(res))
    && (s.up.state == Validating ==> exists i :: 0 <= i < |res| && s.pcs[i] == Done(true))
    && (s.up.final.Some? ==> exists i :: 0 <= i < |res| && (s.pcs[i].Announce? || s.pcs[i] == Done(true)))
  }
}
