/**
 One ACME order driven by a certificate authority that may answer anything:
 directory, newOrder, authorization, challenge, authorization polls, finalize,
 order polls, download, with the two recoveries, the DNS hooks and the single
 badNonce resend of the account layer (section 6.5 of RFC 8555).
 */
module OrderFlow {

  datatype Challenge = Http01 | TlsAlpn01 | Dns01

  /** The signed POSTs of an order. */
  datatype Kind = NewOrder | GetAuthz | Respond | PollAuthz | Finalize | PollOrder | Download

  /** The "status" member of an authorization or order object; "processing" reads as Pending. */
  datatype Status = Valid | Ready | Pending | Other

  /**
   What came back for a request: `ok` is transport success, `usable` says
   that the body holds what this step needs (URLs, a pending challenge of the
   configured type with a safe token, a certificate URL, a non-empty chain).
   */
  datatype Reply = Reply(ok: bool, code: nat, badNonce: bool, usable: bool, status: Status)

  /** What an order is waiting for, exactly one thing at a time. */
  datatype Wait =
    | Directory
    | Post(kind: Kind, retried: bool)
    | Renonce(kind: Kind)
    | InHandler                     // not waiting: a challenge answer is being published
    | AddHook | DelayTimer | PollTimer | RemoveHook | Keygen | OrderTimer
    | Finished

  /** What the latest answer allows, read off the protocol and not off the handlers. */
  datatype Answer = Nothing | Discovered | Created | Challenged | Accepted | StillPending
                  | Authorized | Finalizing | OrderPending | OrderReady | Issued | Redownload | Downloaded | Refused

  const AUTHZ_POLLS: nat := 180
  const ORDER_POLLS: nat := 180

  /** The meaning of a reply to a POST, by sections 7.4 and 7.5 of RFC 8555 and the client's two recoveries. */
  function Meaning(kind: Kind, r: Reply): Answer {
    match kind
    case NewOrder => if r.ok && r.code == 201 && r.usable then Created else Refused
    case GetAuthz =>
      if r.ok && r.code == 200 && r.status == Valid then Authorized
      else if r.ok && r.code == 200 && r.usable then Challenged
      else Refused
    case Respond => if r.ok && r.code in {200, 202, 400} then Accepted else Refused
    case PollAuthz =>
      if r.ok && r.code == 200 && r.status == Valid then Authorized
      else if r.ok && r.code == 200 && r.status == Pending then StillPending
      else Refused
    case Finalize => if r.ok && r.code in {200, 400, 403} then Finalizing else Refused
    case PollOrder =>
      if !r.ok || r.code != 200 then OrderPending
      else if r.status == Valid && r.usable then Issued
      else if r.status == Ready then OrderReady
      else if r.status == Pending then OrderPending
      else Refused
    case Download =>
      if r.ok && r.code == 200 && r.usable then Downloaded
      else if !r.ok || (r.code >= 400 && r.code != 404) then Redownload
      else Refused
  }

  /** A request may only follow an answer that calls for it. */
  predicate Justified(kind: Kind, a: Answer) {
    match kind
    case NewOrder => a == Discovered
    case GetAuthz => a == Created
    case Respond => a == Challenged
    case PollAuthz => a == Accepted || a == StillPending
    case Finalize => a == Authorized || a == OrderReady
    case PollOrder => a == Finalizing || a == OrderPending || a == Redownload
    case Download => a == Issued
  }

  /** `local(k)`: the k-th local operation (allocation, signing, spawning, storing) succeeds. */
  datatype Config = Config(challenge: Challenge, hasAdd: bool, hasRemove: bool, rsa: bool, local: nat -> bool)

  /** The order's fields. */
  datatype Fields = Fields(
    waiting: Wait,
    pollTries: nat,
    orderPollTries: nat,
    finalizeRetried: bool,
    downloadRetried: bool,
    challengeSet: bool,
    alpnSet: bool,
    dnsSet: bool,
    afterAuthz: bool,               // the remove hook is followed by finalize
    cleanup: bool,                  // the remove hook is followed by the handler
    done: bool,
    finishRc: bool)

  /** What happened so far. */
  datatype Tally = Tally(
    calls: nat,                     // handler invocations
    result: bool,
    faulted: bool,                  // a local operation failed
    hookFailed: bool,               // the add hook reported failure
    addHooks: nat,
    removeHooks: nat,
    answer: Answer,
    sent: seq<(Kind, Answer)>,      // each POST with the answer it followed
    sends: seq<nat>)                // how often each POST went out

  /** How many of the POSTs were of this kind. */
  function Many(sent: seq<(Kind, Answer)>, kind: Kind): nat {
    if sent == [] then 0 else Many(sent[..|sent| - 1], kind) + if sent[|sent| - 1].0 == kind then 1 else 0
  }

  // ---------------------------------------------------------------- measure

  function Attempt(w: Wait): nat {
    match w case Post(_, retried) => if retried then 1 else 3 case Renonce(_) => 2 case _ => 0
  }

  /** The POST in progress, whether it is out or waits for a fresh nonce. */
  predicate Posting(w: Wait, kind: Kind) {
    (w.Post? || w.Renonce?) && w.kind == kind
  }

  function KindStage(kind: Kind): nat {
    match kind
    case NewOrder => 8
    case GetAuthz => 7
    case Respond => 5
    case PollAuthz => 4
    case _ => 2
  }

  function Stage(f: Fields): nat {
    match f.waiting
    case Directory => 9
    case InHandler => 6
    case AddHook => 6
    case DelayTimer => 6
    case PollTimer => 4
    case RemoveHook => if f.cleanup then 1 else 3
    case Keygen => 2
    case OrderTimer => 2
    case Finished => 0
    case Post(kind, _) => KindStage(kind)
    case Renonce(kind) => KindStage(kind)
  }

  function Issuance(f: Fields): nat {
    (if f.downloadRetried then 0 else 16384) + (if f.finalizeRetried then 0 else 8192)
  }

  function PostInner(f: Fields, kind: Kind): int {
    match kind
    case PollAuthz => (181 - f.pollTries) * 16 + Attempt(f.waiting)
    case Finalize => Issuance(f) + 4096 + Attempt(f.waiting)
    case PollOrder => Issuance(f) + (181 - f.orderPollTries) * 16 + 6 + Attempt(f.waiting)
    case Download => Issuance(f) + (181 - f.orderPollTries) * 16 + Attempt(f.waiting)
    case _ => Attempt(f.waiting)
  }

  function Inner(f: Fields): int {
    match f.waiting
    case AddHook => 1
    case PollTimer => (181 - f.pollTries) * 16
    case Keygen => Issuance(f) + 4096 + 9
    case OrderTimer => Issuance(f) + (181 - f.orderPollTries) * 16 + 6
    case Post(kind, _) => PostInner(f, kind)
    case Renonce(kind) => PostInner(f, kind)
    case _ => 0
  }

  /** Falls with every step, whatever the CA answers. */
  function Measure(f: Fields): int {
    Stage(f) * 65536 + Inner(f)
  }

  // -------------------------------------------------------------- invariant

  predicate Counters(f: Fields, t: Tally) {
    && Many(t.sent, PollAuthz) <= f.pollTries && Many(t.sent, PollAuthz) <= AUTHZ_POLLS
    && (Stage(f) >= 4 ==> f.pollTries <= AUTHZ_POLLS)
    && (Stage(f) >= 2 ==> f.orderPollTries <= ORDER_POLLS)
    && Many(t.sent, PollOrder) <= (if f.orderPollTries <= ORDER_POLLS then f.orderPollTries else ORDER_POLLS)
                       + (if f.downloadRetried then ORDER_POLLS else 0)
    && Many(t.sent, Finalize) <= (if f.finalizeRetried then 1 else 0) + (if Stage(f) > 2 || f.waiting == Keygen then 0 else 1)
    && Many(t.sent, Download) <= (if f.downloadRetried then 1 else 0) + (if Posting(f.waiting, Download) || Stage(f) <= 1 then 1 else 0)
  }

  predicate Hooks(c: Config, f: Fields, t: Tally) {
    && t.addHooks <= 1 && t.removeHooks <= 1
    && (Stage(f) > 6 ==> t.addHooks == 0 && t.removeHooks == 0 && !f.dnsSet && !f.challengeSet && !f.alpnSet)
    && (f.dnsSet && f.waiting != RemoveHook ==> t.removeHooks == 0)
    && (t.addHooks > 0 && c.hasRemove ==> f.dnsSet || t.removeHooks == 1)
    && (f.dnsSet ==> c.challenge == Dns01)
    && (c.challenge == Dns01 ==> !f.challengeSet && !f.alpnSet)
    && (f.waiting == RemoveHook ==> f.dnsSet && c.hasRemove && t.removeHooks == 1 && (f.afterAuthz <==> !f.cleanup))
    && (f.waiting != RemoveHook ==> !f.afterAuthz && !f.cleanup)
    && (Stage(f) <= 3 && f.waiting != RemoveHook ==> !f.dnsSet && !f.challengeSet && !f.alpnSet)
    && (4 <= Stage(f) <= 6 && f.waiting != InHandler ==> Shown(c, f))
  }

  /** Exactly the configured challenge has its answer up. */
  predicate Shown(c: Config, f: Fields) {
    && (f.challengeSet <==> c.challenge == Http01) && (f.alpnSet <==> c.challenge == TlsAlpn01)
    && (f.dnsSet <==> c.challenge == Dns01)
  }

  /** Every POST followed an answer that calls for it, and went out once or twice; the first one, and only that, is newOrder. */
  predicate Record(sent: seq<(Kind, Answer)>, sends: seq<nat>) {
    && |sent| == |sends|
    && (forall i :: 0 <= i < |sent| ==> Justified(sent[i].0, sent[i].1) && (sent[i].0 == NewOrder <==> i == 0))
    && (forall i :: 0 <= i < |sends| ==> 1 <= sends[i] <= 2)
  }

  predicate Log(f: Fields, t: Tally) {
    && Record(t.sent, t.sends)
    && (f.waiting == Directory ==> t.sent == []) && (2 <= Stage(f) <= 8 ==> t.sent != [])
    && (f.waiting.Post? || f.waiting.Renonce? ==> t.sends != [])
    && (f.waiting.Renonce? ==> t.sends[|t.sends| - 1] == 1)
    && (f.waiting.Post? ==> t.sends[|t.sends| - 1] == if f.waiting.retried then 2 else 1)
    && (f.waiting == AddHook || f.waiting == DelayTimer ==> t.answer == Challenged)
    && (f.waiting == PollTimer ==> t.answer == Accepted || t.answer == StillPending)
    && (f.waiting == RemoveHook && f.afterAuthz ==> t.answer == Authorized)
    && (f.waiting == Keygen ==> t.answer == Authorized || t.answer == OrderReady)
    && (f.waiting == OrderTimer ==> t.answer == Finalizing || t.answer == OrderPending || t.answer == Redownload)
  }

  /** Some local operation fails. */
  ghost predicate Unreliable(c: Config) { exists k :: !c.local(k) }

  /** Exactly one handler call, made when the order finishes and not before. */
  ghost predicate Ended(c: Config, f: Fields, t: Tally) {
    && (t.faulted ==> Unreliable(c))
    && (f.waiting == Finished ==> t.calls == 1 && f.done)
    && (f.waiting != Finished ==> t.calls == 0 && (f.done <==> f.waiting == RemoveHook && f.cleanup))
    && (f.waiting == Finished && t.result ==> t.answer == Downloaded)
    && (f.waiting == Finished && !t.result ==> Excused(f, t))
    && (f.waiting == RemoveHook && f.cleanup ==> if f.finishRc then t.answer == Downloaded else Excused(f, t))
  }

  /** The only reasons to give up: a refusal, an exhausted budget, a spent recovery, a failed hook or a local fault. */
  predicate Excused(f: Fields, t: Tally) {
    || t.faulted || t.hookFailed || t.answer == Refused
    || ((t.answer == Accepted || t.answer == StillPending) && f.pollTries == AUTHZ_POLLS)
    || ((t.answer == Finalizing || t.answer == OrderPending || t.answer == Redownload) && f.orderPollTries == ORDER_POLLS)
    || ((t.answer == Finalizing || t.answer == OrderReady) && f.finalizeRetried)
    || (t.answer == Redownload && f.downloadRetried)
  }

  ghost predicate Inv(c: Config, f: Fields, t: Tally) {
    Counters(f, t) && Hooks(c, f, t) && Log(f, t) && Ended(c, f, t)
  }

  // --------------------------------------------------------- single changes

  function WaitFor(f: Fields, w: Wait): (g: Fields)
    ensures g.waiting == w && g.finishRc == f.finishRc
  {
    f.(waiting := w)
  }

  /** The remove hook of an ending order is out, then over. */
  function HookOut(f: Fields, rc: bool): (g: Fields)
    ensures g.waiting == RemoveHook
  {
    f.(done := true, finishRc := rc, cleanup := true, waiting := RemoveHook)
  }

  function HookOver(f: Fields): (g: Fields)
    ensures g.waiting == Finished && g.finishRc == f.finishRc
  {
    f.(dnsSet := false, cleanup := false, waiting := Finished)
  }

  /** The fields of an ended order. */
  function Down(f: Fields): (g: Fields)
    ensures g.waiting == Finished
  {
    f.(done := true, challengeSet := false, alpnSet := false, dnsSet := false, waiting := Finished)
  }

  /** The remove hook runs before finalize, then is over. */
  function HookFirst(f: Fields): (g: Fields)
    ensures g.waiting == RemoveHook
  {
    f.(afterAuthz := true, waiting := RemoveHook)
  }

  function HookDone(f: Fields): Fields { f.(dnsSet := false, afterAuthz := false) }

  /** The answer is down and the key is next. */
  function Unpublished(f: Fields): (g: Fields)
    ensures g.waiting == Keygen
  {
    f.(challengeSet := false, alpnSet := false, dnsSet := false, waiting := Keygen)
  }

  /** The answer is up: a file or certificate, or a TXT record. */
  function WithAnswer(c: Config, f: Fields): Fields {
    f.(waiting := InHandler, challengeSet := c.challenge == Http01, alpnSet := c.challenge == TlsAlpn01)
  }

  function WithRecord(f: Fields): Fields { f.(waiting := InHandler, dnsSet := true) }

  function FinalizedOnce(f: Fields): Fields { f.(finalizeRetried := true) }

  function DownloadedOnce(f: Fields): (g: Fields)
    ensures g.waiting == OrderTimer
  {
    f.(downloadRetried := true, orderPollTries := 0, waiting := OrderTimer)
  }

  function OnePoll(f: Fields): Fields { f.(pollTries := f.pollTries + 1) }

  function OneOrderPoll(f: Fields): Fields { f.(orderPollTries := f.orderPollTries + 1) }

  function Called(t: Tally, rc: bool): (u: Tally)
    ensures u.calls == t.calls + 1 && u.result == rc && u.answer == t.answer && u.sent == t.sent && u.removeHooks == t.removeHooks
  {
    t.(calls := t.calls + 1, result := rc)
  }

  function OneHook(t: Tally): (u: Tally)
    ensures u.removeHooks == t.removeHooks + 1 && u.answer == t.answer && u.sent == t.sent && u.faulted == t.faulted
    ensures u.calls == t.calls
  {
    t.(removeHooks := t.removeHooks + 1)
  }

  function Hooked(t: Tally): (u: Tally)
    ensures u.addHooks == 1 && u.answer == t.answer && u.sent == t.sent
  {
    t.(addHooks := 1)
  }

  function HookFailed(t: Tally): (u: Tally)
    ensures u.answer == t.answer && u.sent == t.sent
  {
    t.(hookFailed := true)
  }

  function Faulty(t: Tally): (u: Tally)
    ensures u.faulted && u.answer == t.answer && u.sent == t.sent && u.removeHooks == t.removeHooks && u.addHooks == t.addHooks
    ensures u.calls == t.calls
  {
    t.(faulted := true)
  }

  function Heard(t: Tally, a: Answer): (u: Tally)
    ensures u.answer == a && u.sent == t.sent
  {
    t.(answer := a)
  }

  function SentTwice(t: Tally): (u: Tally)
    requires t.sends != []
    ensures u.answer == t.answer && u.sent == t.sent && u.sends == t.sends[|t.sends| - 1 := 2]
  {
    t.(sends := t.sends[|t.sends| - 1 := 2])
  }

  /** One more POST of this kind on the record. */
  function Counted(t: Tally, kind: Kind): (u: Tally)
    ensures u.answer == t.answer && u.sent == t.sent + [(kind, t.answer)]
  {
    t.(sent := t.sent + [(kind, t.answer)], sends := t.sends + [1])
  }

  lemma {:induction false} CountedMany(t: Tally, kind: Kind)
    ensures forall k: Kind :: Many(Counted(t, kind).sent, k) == Many(t.sent, k) + if kind == k then 1 else 0
  {
    assert (t.sent + [(kind, t.answer)])[..|t.sent|] == t.sent;
  }

  // --------------------------------------------------------------- outcomes

  /**
   The order is ending: its remove hook runs first when a record is out and the
   hook could be spawned; otherwise the answer is down and the handler was called.
   */
  predicate Ends(c: Config, f0: Fields, f: Fields, t: Tally, rc: bool) {
    if f.waiting == RemoveHook then
      f0.dnsSet && c.hasRemove && f == HookOut(f0, rc)
    else
      f == Down(f0) && t.calls == 1 && t.result == rc
  }

  /** The two forms, spelt out. */
  lemma {:induction false} EndForms(c: Config, f0: Fields, t: Tally, rc: bool)
    ensures f0.dnsSet && c.hasRemove ==>
              forall t': Tally :: Ends(c, f0, HookOut(f0, rc), t', rc)
    ensures forall t': Tally :: t'.calls == 1 && t'.result == rc ==> Ends(c, f0, Down(f0), t', rc)
    ensures Down(f0).waiting == Finished
  {
  }

  /** A POST goes out, or the order ends because a local operation failed. */
  predicate Sends(c: Config, f0: Fields, f: Fields, t: Tally, kind: Kind, ok: bool) {
    if ok then f == WaitFor(f0, Post(kind, false)) else Ends(c, f0, f, t, false)
  }

  lemma {:induction false} SendForms(c: Config, f0: Fields, kind: Kind)
    ensures forall t: Tally :: Sends(c, f0, WaitFor(f0, Post(kind, false)), t, kind, true)
    ensures forall f: Fields, t: Tally :: Ends(c, f0, f, t, false) ==> Sends(c, f0, f, t, kind, false)
  {
  }

  /** Finalize is on its way, at once or behind an RSA key; or the order ends because a local operation failed. */
  predicate Begins(c: Config, f0: Fields, f: Fields, t: Tally, ok: bool) {
    || (c.rsa && f == WaitFor(f0, Keygen))
    || f == WaitFor(f0, Post(Finalize, false))
    || (!ok && Ends(c, f0, f, t, false))
  }

  lemma {:induction false} BeginForms(c: Config, f0: Fields, t: Tally)
    ensures forall t': Tally, ok: bool :: c.rsa ==> Begins(c, f0, WaitFor(f0, Keygen), t', ok)
    ensures forall t': Tally, ok: bool :: Begins(c, f0, WaitFor(f0, Post(Finalize, false)), t', ok)
    ensures forall f: Fields, t': Tally :: Ends(c, f0, f, t', false) ==> Begins(c, f0, f, t', false)
    ensures forall f: Fields, t': Tally, ok: bool :: Begins(c, f0, f, t', ok) ==> Begins(c, f0, f, t', false)
    ensures forall f: Fields, t': Tally :: Ends(c, f0, f, t', false) ==> f.waiting == RemoveHook || f.waiting == Finished
    ensures forall f: Fields, t': Tally :: Sends(c, f0, f, t', Finalize, false) ==> Ends(c, f0, f, t', false)
    ensures forall f: Fields, t': Tally :: Sends(c, f0, f, t', Finalize, true) ==> f == WaitFor(f0, Post(Finalize, false))
  {
  }

  /** What the order waited for before does not matter. */
  lemma {:induction false} BeginsFrom(c: Config, f0: Fields)
    ensures forall f: Fields, t: Tally, ok: bool :: Begins(c, WaitFor(f0, Keygen), f, t, ok) ==> Begins(c, f0, f, t, ok)
  {
    WaitTwice(f0);
    KeepsRecord(f0);
    hide WaitFor, HookOut, Down;
  }

  lemma {:induction false} WaitTwice(f: Fields)
    ensures WaitFor(WaitFor(f, Keygen), Keygen) == WaitFor(f, Keygen)
    ensures WaitFor(WaitFor(f, Keygen), Post(Finalize, false)) == WaitFor(f, Post(Finalize, false))
    ensures Down(WaitFor(f, Keygen)) == Down(f) && HookOut(WaitFor(f, Keygen), false) == HookOut(f, false)
  {
  }

  lemma {:induction false} KeepsRecord(f: Fields)
    ensures WaitFor(f, Keygen).dnsSet == f.dnsSet
  {
  }

  /** The challenge answer is on its way up: for DNS-01 by the hook or by waiting, otherwise at once with the CA told. */
  predicate Published(c: Config, f0: Fields, f: Fields, t: Tally, ok: bool) {
    if c.challenge != Dns01 then
      if ok then
        && f.waiting == Post(Respond, false)
        && f == f0.(waiting := f.waiting, challengeSet := c.challenge == Http01, alpnSet := c.challenge == TlsAlpn01)
      else Ends(c, f0, f, t, false)
    else if !c.hasAdd then f == WaitFor(WithRecord(f0), DelayTimer)
    else if ok then f == WaitFor(WithRecord(f0), AddHook) && t.addHooks == 1
    else Ends(c, WithRecord(f0), f, t, false)
  }

  /** The challenge answer comes down before finalize: through the hook when a record is out and it could be spawned. */
  predicate Unpublishes(c: Config, f0: Fields, f: Fields, t: Tally, ok: bool, sound: bool) {
    if f0.dnsSet && c.hasRemove && ok then f == HookFirst(f0)
    else Begins(c, Unpublished(f0), f, t, sound)
  }

  lemma {:induction false} UnpublishForms(c: Config, f0: Fields)
    ensures f0.dnsSet && c.hasRemove ==> forall t: Tally, sound: bool :: Unpublishes(c, f0, HookFirst(f0), t, true, sound)
    ensures forall f: Fields, t: Tally, ok: bool, sound: bool ::
              Begins(c, Unpublished(f0), f, t, sound) && !(f0.dnsSet && c.hasRemove && ok) ==> Unpublishes(c, f0, f, t, ok, sound)
  {
  }

  /** A first badNonce reply. */
  predicate Stale(w: Wait, r: Reply) { w.Post? && r.ok && !w.retried && r.code >= 400 && r.badNonce }

  /** What the order is told when its request could not be made at all. */
  const Failure := Reply(false, 0, false, false, Other)

  /** A failed request ends the order, except that an order poll is repeated and a download recovered. */
  lemma {:induction false} FailureMeans(kind: Kind)
    ensures Meaning(kind, Failure) == match kind case PollOrder => OrderPending case Download => Redownload case _ => Refused
  {
  }

  // -------------------------------------------- transitions keep the invariant

  /** Between two waits of an order that has not ended. */
  ghost predicate Alive(c: Config, f: Fields, t: Tally) {
    Inv(c, f, t) && Stage(f) > 1 && f.waiting != RemoveHook
  }

  /** Waiting for something else, with less to do than `m`. */
  ghost predicate Less(c: Config, f: Fields, t: Tally, m: int) {
    Inv(c, f, t) && f.waiting != InHandler && Measure(f) < m
  }

  /** A signed POST of this kind is due now and within its budget. */
  ghost predicate Sendable(c: Config, f: Fields, t: Tally, kind: Kind) {
    && Alive(c, f, t) && Justified(kind, t.answer) && (kind == NewOrder <==> t.sent == [])
    && Counters(WaitFor(f, Post(kind, false)), Counted(t, kind))
    && Hooks(c, WaitFor(f, Post(kind, false)), t)
  }

  /** The order may ask for a key and finalize. */
  ghost predicate Startable(c: Config, f: Fields, t: Tally) {
    Sendable(c, f, t, Finalize) && Alive(c, WaitFor(f, Keygen), t)
  }

  lemma {:induction false} RecordAppend(sent: seq<(Kind, Answer)>, sends: seq<nat>, kind: Kind, a: Answer)
    requires Record(sent, sends) && Justified(kind, a) && (kind == NewOrder <==> sent == [])
    ensures Record(sent + [(kind, a)], sends + [1])
  {
  }

  lemma {:induction false} SentLog(c: Config, f: Fields, t: Tally, kind: Kind)
    requires Log(f, t) && Justified(kind, t.answer) && (kind == NewOrder <==> t.sent == [])
    ensures Log(WaitFor(f, Post(kind, false)), Counted(t, kind))
  {
    hide Record, Many, Stage;
    RecordAppend(t.sent, t.sends, kind, t.answer);
  }

  lemma {:induction false} PostStage(f: Fields, kind: Kind)
    ensures Stage(WaitFor(f, Post(kind, false))) > 1
  {
  }

  lemma {:induction false} SentHooks(c: Config, f: Fields, t: Tally, kind: Kind)
    requires Hooks(c, f, t)
    ensures Hooks(c, f, Counted(t, kind))
  {
  }

  lemma {:induction false} SentEnded(c: Config, f: Fields, t: Tally, kind: Kind)
    requires Ended(c, f, t) && f.waiting != Finished && f.waiting != RemoveHook
    ensures Ended(c, WaitFor(f, Post(kind, false)), Counted(t, kind))
  {
    hide Many, Excused, Unreliable;
  }

  lemma {:induction false} SendGood(c: Config, f: Fields, t: Tally, kind: Kind)
    requires Sendable(c, f, t, kind)
    ensures Alive(c, WaitFor(f, Post(kind, false)), Counted(t, kind))
  {
    hide Counters, Hooks, Log, Ended, Many, Record;
    SentLog(c, f, t, kind);
    SentEnded(c, f, t, kind);
    PostStage(f, kind);
    SentHooks(c, WaitFor(f, Post(kind, false)), t, kind);
  }

  /** A local fault changes nothing but the record of it, and excuses giving up. */
  lemma {:induction false} FaultGood(c: Config, f: Fields, t: Tally)
    requires Inv(c, f, t) && Unreliable(c)
    ensures Inv(c, f, Faulty(t)) && Excused(f, Faulty(t))
  {
    hide Record;
  }

  lemma {:induction false} FaultsKnown(c: Config, f: Fields, t: Tally)
    requires Inv(c, f, t)
    ensures t.faulted ==> Unreliable(c)
  {
    hide Record, Many, Counters, Hooks, Log, Excused, Unreliable;
  }

  /** An answer arrived: nothing else changes yet. */
  lemma {:induction false} AnswerGood(c: Config, f: Fields, t: Tally, a: Answer)
    requires Alive(c, f, t) && (f.waiting.Post? || f.waiting.Renonce? || f.waiting == Directory)
    ensures Alive(c, f, Heard(t, a))
  {
    hide Record, Many, Unreliable;
  }

  lemma {:induction false} MeasureLive(c: Config, f: Fields, t: Tally)
    requires Alive(c, f, t)
    ensures Measure(f) >= 2 * 65536
  {
    hide Record, Many, Hooks, Log, Ended;
  }

  lemma {:induction false} AliveLess(c: Config, f: Fields, t: Tally, m: int)
    requires Alive(c, f, t) && f.waiting != InHandler && Measure(f) < m
    ensures Less(c, f, t, m)
  {
  }

  lemma {:induction false} MeasureNonNegative(c: Config, f: Fields, t: Tally)
    requires Inv(c, f, t)
    ensures Measure(f) >= 0
  {
    hide Record, Many, Hooks, Log, Ended;
  }

  /** The remove hook was spawned by an ending order: only its exit is still to come. */
  lemma {:induction false} RemoveSpawned(c: Config, f: Fields, t: Tally, rc: bool, m: int)
    requires Alive(c, f, t) && f.dnsSet && c.hasRemove && 2 * 65536 <= m
    requires if rc then t.answer == Downloaded else Excused(f, t)
    ensures var f' := HookOut(f, rc);
            Less(c, f', OneHook(t), m)
  {
    hide Record, Many, Unreliable;
  }

  /** It could not be spawned: the order ends without it. */
  lemma {:induction false} RemoveSkipped(c: Config, f: Fields, t: Tally, rc: bool, m: int)
    requires Alive(c, f, t) && f.dnsSet && c.hasRemove && 2 * 65536 <= m
    requires (if rc then t.answer == Downloaded else Excused(f, t)) && Unreliable(c)
    ensures t.calls == 0 && Less(c, Down(f), Called(Faulty(OneHook(t)), rc), m)
  {
    hide Record, Many, Unreliable;
  }

  /** The answer is taken down and the handler called. */
  lemma {:induction false} Terminated(c: Config, f: Fields, t: Tally, rc: bool, m: int)
    requires Alive(c, f, t) && (c.hasRemove ==> !f.dnsSet) && 2 * 65536 <= m
    requires if rc then t.answer == Downloaded else Excused(f, t)
    ensures t.calls == 0
    ensures var f' := Down(f);
            Less(c, f', Called(t, rc), m)
  {
    hide Record, Many, Unreliable;
  }

  /** The remove hook of an ending order is over. */
  lemma {:induction false} HookEnds(c: Config, f: Fields, t: Tally)
    requires Inv(c, f, t) && f.waiting == RemoveHook && !f.afterAuthz
    ensures t.calls == 0 && f.done && f.cleanup && Measure(f) >= 65536
    ensures var f' := HookOver(f);
            Less(c, f', Called(t, f.finishRc), Measure(f))
  {
    hide Record, Many, Unreliable;
  }

  /** The remove hook after a valid authorization is over. */
  lemma {:induction false} HookToKeygen(c: Config, f: Fields, t: Tally)
    requires Inv(c, f, t) && f.waiting == RemoveHook && f.afterAuthz
    ensures var f' := WaitFor(HookDone(f), Keygen);
            Alive(c, f', t) && Measure(f') < Measure(f)
  {
    hide Record, Many, Unreliable, Excused;
  }

  lemma {:induction false} FromDirectory(c: Config, f: Fields, t: Tally)
    requires Alive(c, f, t) && f.waiting == Directory && t.answer == Discovered
    ensures Sendable(c, f, t, NewOrder) && Measure(WaitFor(f, Post(NewOrder, false))) < Measure(f)
  {
    CountedMany(t, NewOrder);
    hide Record, Many, Unreliable, Excused;
  }

  lemma {:induction false} ToAuthz(c: Config, f: Fields, t: Tally)
    requires Alive(c, f, t) && Posting(f.waiting, NewOrder) && t.answer == Created
    ensures Sendable(c, f, t, GetAuthz) && Measure(WaitFor(f, Post(GetAuthz, false))) < Measure(f)
  {
    CountedMany(t, GetAuthz);
    hide Record, Many, Unreliable, Excused;
  }

  lemma {:induction false} AuthzToFinalize(c: Config, f: Fields, t: Tally)
    requires Alive(c, f, t) && Posting(f.waiting, GetAuthz) && t.answer == Authorized
    ensures Startable(c, f, t)
    ensures Measure(WaitFor(f, Post(Finalize, false))) < Measure(f) && Measure(WaitFor(f, Keygen)) < Measure(f)
  {
    AuthzToKeygen(c, f, t);
    AuthzBudget(c, f, t);
    hide Alive, Counters, Hooks, Measure;
  }

  lemma {:induction false} AuthzToKeygen(c: Config, f: Fields, t: Tally)
    requires Alive(c, f, t) && Posting(f.waiting, GetAuthz) && t.answer == Authorized
    ensures Alive(c, WaitFor(f, Keygen), t) && Measure(WaitFor(f, Keygen)) < Measure(f) && t.sent != []
  {
    hide Record, Many, Unreliable, Excused;
  }

  lemma {:induction false} AuthzBudget(c: Config, f: Fields, t: Tally)
    requires Alive(c, f, t) && Posting(f.waiting, GetAuthz)
    ensures var g := WaitFor(f, Post(Finalize, false));
            Counters(g, Counted(t, Finalize)) && Hooks(c, g, t) && Measure(g) < Measure(f)
  {
    CountedMany(t, Finalize);
    hide Record, Many, Ended;
  }

  /** A key authorization is being published for HTTP-01 or TLS-ALPN-01. */
  lemma {:induction false} PublishedLocally(c: Config, f: Fields, t: Tally)
    requires Alive(c, f, t) && Posting(f.waiting, GetAuthz) && t.answer == Challenged && c.challenge != Dns01
    ensures var f' := WithAnswer(c, f);
            Sendable(c, f', t, Respond) && Measure(WaitFor(f', Post(Respond, false))) < Measure(f)
  {
    CountedMany(t, Respond);
    hide Record, Many, Unreliable, Excused;
  }

  /** What the outcome of sending the answer says of the fields. */
  lemma {:induction false} AnswerSent(c: Config, f0: Fields, t0: Tally)
    requires Alive(c, f0, t0) && Posting(f0.waiting, GetAuthz) && c.challenge != Dns01
    ensures forall f: Fields, t: Tally, ok: bool ::
              Sends(c, WithAnswer(c, f0), f, t, Respond, ok) ==> Published(c, f0, f, t, ok)
  {
    hide Counters, Log, Ended;
  }

  /** The invariant's word on the flags of an order whose answer is up. */
  lemma {:induction false} ShownThen(c: Config, f: Fields, t: Tally, m: int)
    requires Less(c, f, t, m)
    ensures f.waiting == Post(Respond, false) ==>
              (f.challengeSet <==> c.challenge == Http01) && (f.alpnSet <==> c.challenge == TlsAlpn01) && (f.dnsSet <==> c.challenge == Dns01)
    ensures f.waiting == AddHook || f.waiting == DelayTimer ==>
              (f.challengeSet <==> c.challenge == Http01) && (f.alpnSet <==> c.challenge == TlsAlpn01) && (f.dnsSet <==> c.challenge == Dns01)
  {
    hide Counters, Log, Ended, Measure;
  }

  /** A TXT record is being published, through the hook or not at all. */
  lemma {:induction false} PublishedDns(c: Config, f: Fields, t: Tally)
    requires Alive(c, f, t) && Posting(f.waiting, GetAuthz) && t.answer == Challenged && c.challenge == Dns01
    ensures t.addHooks == 0 && Alive(c, WithRecord(f), Hooked(t))
    ensures !c.hasAdd ==> Less(c, WaitFor(WithRecord(f), DelayTimer), t, Measure(f))
  {
    hide Record, Many, Unreliable, Excused;
  }

  lemma {:induction false} AddHookOut(c: Config, f: Fields, t: Tally)
    requires Alive(c, f, t) && Posting(f.waiting, GetAuthz) && t.answer == Challenged && c.challenge == Dns01
    ensures Less(c, WaitFor(WithRecord(f), AddHook), Hooked(t), Measure(f))
  {
    hide Record, Many, Unreliable, Excused;
  }

  /** Propagation is over. */
  lemma {:induction false} ToRespond(c: Config, f: Fields, t: Tally)
    requires Alive(c, f, t) && f.waiting == DelayTimer
    ensures Sendable(c, f, t, Respond) && Measure(WaitFor(f, Post(Respond, false))) < Measure(f)
  {
    CountedMany(t, Respond);
    hide Record, Many, Unreliable, Excused;
  }

  lemma {:induction false} HookWaits(c: Config, f: Fields, t: Tally)
    requires Alive(c, f, t) && f.waiting == AddHook
    ensures Less(c, WaitFor(f, DelayTimer), t, Measure(f))
    ensures Alive(c, f, HookFailed(t)) && Excused(f, HookFailed(t))
  {
    hide Record, Many, Unreliable;
  }

  lemma {:induction false} PollAgain(c: Config, f: Fields, t: Tally)
    requires Alive(c, f, t)
    requires (Posting(f.waiting, Respond) && t.answer == Accepted) || (Posting(f.waiting, PollAuthz) && t.answer == StillPending)
    ensures Less(c, WaitFor(f, PollTimer), t, Measure(f))
  {
    hide Record, Many, Unreliable, Excused;
  }

  /** The record is taken down by the hook before finalize, or not at all when it cannot be spawned. */
  lemma {:induction false} ValidHook(c: Config, f: Fields, t: Tally)
    requires Alive(c, f, t) && Posting(f.waiting, PollAuthz) && t.answer == Authorized && f.dnsSet && c.hasRemove
    ensures Less(c, HookFirst(f), OneHook(t), Measure(f))
    ensures Unreliable(c) ==> Alive(c, Unpublished(f), Faulty(OneHook(t))) && Measure(Unpublished(f)) < Measure(f)
  {
    HookTakes(c, f, t);
    HookSkipped(c, f, t);
    hide *;
  }

  lemma {:induction false} HookTakes(c: Config, f: Fields, t: Tally)
    requires Alive(c, f, t) && Posting(f.waiting, PollAuthz) && t.answer == Authorized && f.dnsSet && c.hasRemove
    ensures Less(c, HookFirst(f), OneHook(t), Measure(f))
  {
    hide Record, Many, Unreliable, Excused;
  }

  lemma {:induction false} HookSkipped(c: Config, f: Fields, t: Tally)
    requires Alive(c, f, t) && Posting(f.waiting, PollAuthz) && t.answer == Authorized && f.dnsSet && c.hasRemove
    ensures Unreliable(c) ==> Alive(c, Unpublished(f), Faulty(OneHook(t))) && Measure(Unpublished(f)) < Measure(f)
  {
    hide Record, Many, Unreliable, Excused;
  }

  lemma {:induction false} ValidDirect(c: Config, f: Fields, t: Tally)
    requires Alive(c, f, t) && Posting(f.waiting, PollAuthz) && t.answer == Authorized && (c.hasRemove ==> !f.dnsSet)
    ensures var f' := Unpublished(f);
            Alive(c, f', t) && Measure(f') < Measure(f)
  {
    hide Record, Many, Unreliable, Excused;
  }

  lemma {:induction false} KeygenStart(c: Config, f: Fields, t: Tally)
    requires Alive(c, f, t) && f.waiting == Keygen
    ensures Startable(c, f, t) && Measure(WaitFor(f, Post(Finalize, false))) < Measure(f)
  {
    CountedMany(t, Finalize);
    hide Record, Many, Unreliable, Excused;
  }

  lemma {:induction false} OrderAgain(c: Config, f: Fields, t: Tally)
    requires Alive(c, f, t)
    requires (Posting(f.waiting, Finalize) && t.answer == Finalizing) || (Posting(f.waiting, PollOrder) && t.answer == OrderPending)
    ensures Less(c, WaitFor(f, OrderTimer), t, Measure(f))
  {
    hide Record, Many, Unreliable, Excused;
  }

  lemma {:induction false} ToDownload(c: Config, f: Fields, t: Tally)
    requires Alive(c, f, t) && Posting(f.waiting, PollOrder) && t.answer == Issued
    ensures Sendable(c, f, t, Download) && Measure(WaitFor(f, Post(Download, false))) < Measure(f)
  {
    CountedMany(t, Download);
    hide Record, Many, Unreliable, Excused;
  }

  /** The one recovery of an early finalize. */
  lemma {:induction false} FinalizeAgain(c: Config, f: Fields, t: Tally)
    requires Alive(c, f, t) && Posting(f.waiting, PollOrder) && t.answer == OrderReady && !f.finalizeRetried
    ensures var f' := WaitFor(FinalizedOnce(f), Keygen);
            Alive(c, f', t) && Measure(f') < Measure(f)
  {
    hide Record, Many, Unreliable, Excused;
  }

  /** The one recovery of a failed download. */
  lemma {:induction false} DownloadAgain(c: Config, f: Fields, t: Tally)
    requires Alive(c, f, t) && Posting(f.waiting, Download) && t.answer == Redownload && !f.downloadRetried
    ensures Less(c, DownloadedOnce(f), t, Measure(f))
  {
    hide Record, Many, Unreliable, Excused;
  }

  /** The poll timers: one more try, one more POST, and still less to do. */
  lemma {:induction false} PollTick(c: Config, f: Fields, t: Tally)
    requires Alive(c, f, t) && f.waiting == PollTimer && f.pollTries < AUTHZ_POLLS
    ensures var f' := OnePoll(f);
            Sendable(c, f', t, PollAuthz) && Measure(WaitFor(f', Post(PollAuthz, false))) < Measure(f)
  {
    PollTickAlive(c, f, t);
    PollTickBudget(c, f, t);
    hide Alive, Counters, Hooks, Measure;
  }

  lemma {:induction false} PollTickAlive(c: Config, f: Fields, t: Tally)
    requires Alive(c, f, t) && f.waiting == PollTimer && f.pollTries < AUTHZ_POLLS
    ensures Alive(c, OnePoll(f), t) && Justified(PollAuthz, t.answer) && t.sent != []
  {
    hide Record, Many, Unreliable;
  }

  lemma {:induction false} PollTickBudget(c: Config, f: Fields, t: Tally)
    requires Alive(c, f, t) && f.waiting == PollTimer && f.pollTries < AUTHZ_POLLS
    ensures var g := WaitFor(OnePoll(f), Post(PollAuthz, false));
            Counters(g, Counted(t, PollAuthz)) && Hooks(c, g, t) && Measure(g) < Measure(f)
    ensures Justified(PollAuthz, t.answer)
  {
    CountedMany(t, PollAuthz);
    hide Record, Many, Ended;
  }

  lemma {:induction false} OrderTick(c: Config, f: Fields, t: Tally)
    requires Alive(c, f, t) && f.waiting == OrderTimer && f.orderPollTries < ORDER_POLLS
    ensures var f' := OneOrderPoll(f);
            Sendable(c, f', t, PollOrder) && Measure(WaitFor(f', Post(PollOrder, false))) < Measure(f)
  {
    OrderTickAlive(c, f, t);
    OrderTickBudget(c, f, t);
    hide Alive, Counters, Hooks, Measure;
  }

  lemma {:induction false} OrderTickAlive(c: Config, f: Fields, t: Tally)
    requires Alive(c, f, t) && f.waiting == OrderTimer && f.orderPollTries < ORDER_POLLS
    ensures Alive(c, OneOrderPoll(f), t) && Justified(PollOrder, t.answer) && t.sent != []
  {
    hide Record, Many, Unreliable;
  }

  lemma {:induction false} OrderTickBudget(c: Config, f: Fields, t: Tally)
    requires Alive(c, f, t) && f.waiting == OrderTimer && f.orderPollTries < ORDER_POLLS
    ensures var g := WaitFor(OneOrderPoll(f), Post(PollOrder, false));
            Counters(g, Counted(t, PollOrder)) && Hooks(c, g, t) && Measure(g) < Measure(f)
    ensures Justified(PollOrder, t.answer)
  {
    CountedMany(t, PollOrder);
    hide Record, Many, Ended;
  }

  /** An exhausted budget excuses giving up. */
  lemma {:induction false} BudgetSpent(c: Config, f: Fields, t: Tally)
    requires Alive(c, f, t)
    ensures f.waiting == PollTimer && f.pollTries >= AUTHZ_POLLS ==> Excused(f, t)
    ensures f.waiting == OrderTimer && f.orderPollTries >= ORDER_POLLS ==> Excused(f, t)
  {
    hide Record, Many, Unreliable;
  }

  /** A rejected nonce: the POST waits for a fresh one. */
  lemma {:induction false} NonceRejected(c: Config, f: Fields, t: Tally)
    requires Alive(c, f, t) && f.waiting.Post? && !f.waiting.retried
    ensures var f' := WaitFor(f, Renonce(f.waiting.kind));
            Alive(c, f', t) && Measure(f') <= Measure(f) && Less(c, f', t, Measure(f))
  {
    hide Record, Many, Unreliable, Excused;
  }

  lemma {:induction false} PostingWaits(f: Fields, kind: Kind)
    requires Posting(f.waiting, kind)
    ensures f.waiting.Post? || f.waiting.Renonce?
  {
  }

  lemma {:induction false} WaitingAlive(c: Config, f: Fields, t: Tally)
    requires Inv(c, f, t) && f.waiting != Finished && f.waiting != RemoveHook
    ensures Alive(c, f, t)
  {
  }

  /** Giving up on finalize: refused, or rejected after the one recovery. */
  lemma {:induction false} FinalizeExcused(c: Config, f: Fields, t: Tally)
    ensures t.answer == Refused || (t.answer == Finalizing && f.finalizeRetried) ==> Excused(f, t)
  {
  }

  /** The same POST once more, with a fresh nonce. */
  lemma {:induction false} Resent(c: Config, f: Fields, t: Tally)
    requires Alive(c, f, t) && f.waiting.Renonce?
    ensures t.sends != []
    ensures var f', t' := WaitFor(f, Post(f.waiting.kind, true)), SentTwice(t);
            Less(c, f', t', Measure(f))
  {
    hide Unreliable, Excused;
  }

  // --------------------------------------------------------------- the order

  class Order {
    const cfg: Config
    const replies: nat -> Reply     // the CA's answers, and the hooks' exit codes
    var replyNo: nat
    var localNo: nat
    var f: Fields
    var t: Tally

    constructor (cfg: Config, replies: nat -> Reply)
      ensures Inv(cfg, f, t) && f.waiting == Directory && this.cfg == cfg
    {
      this.cfg, this.replies := cfg, replies;
      replyNo, localNo := 0, 0;
      f := Fields(Directory, 0, 0, false, false, false, false, false, false, false, false, false);
      t := Tally(0, false, false, false, 0, 0, Nothing, [], []);
    }

    method NextReply() returns (r: Reply)
      modifies this`replyNo
      ensures r == replies(old(replyNo)) && replyNo == old(replyNo) + 1
    {
      r := replies(replyNo);
      replyNo := replyNo + 1;
    }

    method Local() returns (ok: bool)
      modifies this`localNo, this`t
      ensures ok == cfg.local(old(localNo)) && localNo == old(localNo) + 1
      ensures t == if ok then old(t) else Faulty(old(t))
      ensures ok || Unreliable(cfg)
    {
      ok := cfg.local(localNo);
      if !ok {
        t := Faulty(t);
      }
      localNo := localNo + 1;
    }

    /** No local operation from number `from` on has failed. */
    ghost predicate Sound(from: nat)
      reads this
    {
      forall k :: from <= k < localNo ==> cfg.local(k)
    }

    /** The end: take the challenge answer down, through the remove hook if a record is out, then call the handler. */
    method Finish(rc: bool, ghost m: int)
      requires 2 * 65536 <= m && Alive(cfg, f, t) && if rc then t.answer == Downloaded else Excused(f, t)
      modifies this`f, this`t, this`localNo
      ensures Less(cfg, f, t, m) && Ends(cfg, old(f), f, t, rc)
      ensures t.answer == old(t.answer) && t.sent == old(t.sent) && localNo >= old(localNo)
      ensures old(f).dnsSet && cfg.hasRemove ==>
                t.removeHooks == old(t.removeHooks) + 1 && (f.waiting == RemoveHook <==> cfg.local(old(localNo)))
    {
      hide *;
      EndForms(cfg, f, t, rc);
      if f.dnsSet && cfg.hasRemove {
        FinishByHook(rc, m);
      } else {
        Terminate(rc, m);
      }
    }

    /** The remove hook first; the handler waits for its exit, unless it cannot be spawned. */
    method FinishByHook(rc: bool, ghost m: int)
      requires Alive(cfg, f, t) && if rc then t.answer == Downloaded else Excused(f, t)
      requires f.dnsSet && cfg.hasRemove && 2 * 65536 <= m
      modifies this`f, this`t, this`localNo
      ensures Less(cfg, f, t, m) && localNo == old(localNo) + 1
      ensures t.answer == old(t).answer && t.sent == old(t).sent && t.removeHooks == old(t).removeHooks + 1
      ensures if cfg.local(old(localNo)) then f == HookOut(old(f), rc)
              else f == Down(old(f)) && t.calls == 1 && t.result == rc
    {
      hide *;
      AliveInv();
      RemoveSpawned(cfg, f, t, rc, m);
      if Unreliable(cfg) {
        RemoveSkipped(cfg, f, t, rc, m);
      }
      t := OneHook(t);
      var spawned := Local();
      if spawned {
        f := HookOut(f, rc);
      } else {
        f := Down(f);
        t := Called(t, rc);
      }
    }

    /** Unpublish and call the handler. */
    method Terminate(rc: bool, ghost m: int)
      requires 2 * 65536 <= m
      requires Alive(cfg, f, t) && (cfg.hasRemove ==> !f.dnsSet) && if rc then t.answer == Downloaded else Excused(f, t)
      modifies this`f, this`t
      ensures Less(cfg, f, t, m) && f == Down(old(f))
      ensures t == Called(old(t), rc) && t.calls == 1
    {
      Terminated(cfg, f, t, rc, m);
      hide *;
      f := Down(f);
      t := Called(t, rc);
    }

    lemma AliveInv()
      requires Alive(cfg, f, t)
      ensures Inv(cfg, f, t) && (t.faulted ==> Unreliable(cfg)) && Measure(f) >= 2 * 65536
      ensures Unreliable(cfg) ==> Alive(cfg, f, Faulty(t)) && Excused(f, Faulty(t))
    {
      FaultsKnown(cfg, f, t);
      MeasureLive(cfg, f, t);
      if Unreliable(cfg) {
        FaultGood(cfg, f, t);
      }
    }

    lemma SendableAlive(kind: Kind)
      requires Sendable(cfg, f, t, kind)
      ensures Alive(cfg, f, t)
    {
    }

    /** Send a signed POST, or end the order when that fails on the spot. */
    method Submit(kind: Kind, ghost m: int)
      requires Sendable(cfg, f, t, kind) && 2 * 65536 <= m && Measure(WaitFor(f, Post(kind, false))) < m
      modifies this`f, this`t, this`localNo
      ensures Sends(cfg, old(f), f, t, kind, cfg.local(old(localNo))) && t.answer == old(t.answer)
      ensures Less(cfg, f, t, m) && localNo > old(localNo)
      ensures if cfg.local(old(localNo)) then t == Counted(old(t), kind) && localNo == old(localNo) + 1 else t.sent == old(t.sent)
    {
      hide *;
      SendGood(cfg, f, t, kind);
      SendableAlive(kind);
      SendForms(cfg, f, kind);
      AliveInv();
      var ok := Local();
      if !ok {
        Finish(false, m);
        return;
      }
      t := Counted(t, kind);
      f := WaitFor(f, Post(kind, false));
      AliveLess(cfg, f, t, m);
    }

    /** Finalize with a fresh key: an RSA key may come from a thread, any other is made on the spot. */
    method StartFinalize(ghost m: int)
      requires Startable(cfg, f, t) && 2 * 65536 <= m && Measure(WaitFor(f, Post(Finalize, false))) < m
      requires Measure(WaitFor(f, Keygen)) < m
      modifies this`f, this`t, this`localNo
      ensures Begins(cfg, old(f), f, t, Sound(old(localNo))) && t.answer == old(t.answer) && localNo >= old(localNo)
      ensures Less(cfg, f, t, m)
      ensures t.sent == if f.waiting == Post(Finalize, false) then old(t.sent) + [(Finalize, t.answer)] else old(t.sent)
    {
      hide *;
      StartableParts();
      BeginForms(cfg, f, t);
      AliveInv();
      var ok := Local();
      if !ok {
        Finish(false, m);
        Unsound(old(localNo), old(localNo));
        return;
      }
      if cfg.rsa {
        var offloaded: bool := *;
        if offloaded {
          f := WaitFor(f, Keygen);
          AliveLess(cfg, f, t, m);
          return;
        }
      }
      Submit(Finalize, m);
      if !cfg.local(old(localNo) + 1) {
        Unsound(old(localNo), old(localNo) + 1);
      }
    }

    lemma Unsound(from: nat, k: nat)
      requires from <= k < localNo && !cfg.local(k)
      ensures !Sound(from)
    {
    }

    lemma StartableParts()
      requires Startable(cfg, f, t)
      ensures Alive(cfg, f, t) && Sendable(cfg, f, t, Finalize) && Alive(cfg, WaitFor(f, Keygen), t)
    {
    }

    // ---------------------------------------------------- reply handlers

    /** The directory: newOrder goes out, or the order ends. */
    method DirectoryDone(r: Reply)
      requires Alive(cfg, f, t) && f.waiting == Directory
      modifies this`f, this`t, this`localNo
      ensures Less(cfg, f, t, old(Measure(f)))
      ensures t.answer == if r.ok && r.code == 200 && r.usable then Discovered else Refused
      ensures if r.ok && r.code == 200 && r.usable then Sends(cfg, old(f), f, t, NewOrder, cfg.local(old(localNo)))
              else Ends(cfg, old(f), f, t, false)
    {
      ghost var m := Measure(f);
      var usable := r.ok && r.code == 200 && r.usable;
      AnswerGood(cfg, f, t, if usable then Discovered else Refused);
      hide Alive, Less, Ends, Sends, Sendable, Measure, Unreliable;
      AliveInv();
      if !usable {
        t := Heard(t, Refused);
        Finish(false, m);
        return;
      }
      t := Heard(t, Discovered);
      FromDirectory(cfg, f, t);
      Submit(NewOrder, m);
    }

    method NewOrderDone(r: Reply)
      requires Alive(cfg, f, t) && Posting(f.waiting, NewOrder) && t.answer == Meaning(NewOrder, r)
      modifies this`f, this`t, this`localNo
      ensures Less(cfg, f, t, old(Measure(f))) && t.answer == old(t.answer)
      ensures if t.answer == Created then Sends(cfg, old(f), f, t, GetAuthz, cfg.local(old(localNo)))
              else Ends(cfg, old(f), f, t, false)
    {
      ghost var m := Measure(f);
      hide Alive, Less, Ends, Sends, Sendable, Measure, Unreliable;
      AliveInv();
      if r.ok && r.code == 201 && r.usable {
        ToAuthz(cfg, f, t);
        Submit(GetAuthz, m);
      } else {
        Finish(false, m);
      }
    }

    /** The authorization: already valid and skipped, or a challenge to publish and answer, or the end. */
    method AuthzDone(r: Reply)
      requires Alive(cfg, f, t) && Posting(f.waiting, GetAuthz) && t.answer == Meaning(GetAuthz, r)
      modifies this`f, this`t, this`localNo
      ensures Less(cfg, f, t, old(Measure(f))) && t.answer == old(t.answer)
      ensures f.waiting == Post(Respond, false) || f.waiting == AddHook || f.waiting == DelayTimer ==>
                (f.challengeSet <==> cfg.challenge == Http01) && (f.alpnSet <==> cfg.challenge == TlsAlpn01)
                && (f.dnsSet <==> cfg.challenge == Dns01)
      ensures t.answer == Authorized ==> Begins(cfg, old(f), f, t, Sound(old(localNo)))
      ensures t.answer == Challenged ==>
                if cfg.local(old(localNo)) then Published(cfg, old(f), f, t, cfg.local(old(localNo) + 1))
                else Ends(cfg, old(f), f, t, false)
      ensures t.answer == Refused ==> Ends(cfg, old(f), f, t, false)
    {
      ghost var m := Measure(f);
      hide Alive, Less, Ends, Begins, Published, Sendable, Startable, Measure, Unreliable;
      AliveInv();
      if r.ok && r.code == 200 && r.status == Valid {
        AuthzToFinalize(cfg, f, t);
        StartFinalize(m);
      } else {
        var ok := Local();
        if r.ok && r.code == 200 && r.usable && ok {
          PublishAnswer();
        } else {
          Finish(false, m);
        }
      }
      ShownThen(cfg, f, t, m);
    }

    /** Publish the key authorization where the configured challenge wants it, then tell the CA. */
    method PublishAnswer()
      requires Alive(cfg, f, t) && Posting(f.waiting, GetAuthz) && t.answer == Challenged
      modifies this`f, this`t, this`localNo
      ensures Less(cfg, f, t, old(Measure(f))) && t.answer == old(t.answer)
      ensures Published(cfg, old(f), f, t, cfg.local(old(localNo)))
    {
      ghost var m := Measure(f);
      hide Alive, Less, Ends, Sends, Sendable, Measure, Unreliable, Published, WithAnswer;
      AliveInv();
      if cfg.challenge == Dns01 {
        PublishDns();
      } else {
        PublishedLocally(cfg, f, t);
        AnswerSent(cfg, f, t);
        f := WithAnswer(cfg, f);
        Submit(Respond, m);
      }
    }

    /** Publish the TXT record through the add hook, or just wait for propagation when there is none. */
    method PublishDns()
      requires Alive(cfg, f, t) && Posting(f.waiting, GetAuthz) && t.answer == Challenged && cfg.challenge == Dns01
      modifies this`f, this`t, this`localNo
      ensures Less(cfg, f, t, old(Measure(f))) && t.answer == old(t.answer)
      ensures Published(cfg, old(f), f, t, cfg.local(old(localNo)))
    {
      ghost var m := Measure(f);
      hide Alive, Less, Ends, Measure, Unreliable, Excused;
      PublishedDns(cfg, f, t);
      AddHookOut(cfg, f, t);
      AliveInv();
      f := WithRecord(f);
      if cfg.hasAdd {
        t := Hooked(t);
        AliveInv();
        var spawned := Local();
        if !spawned {
          Finish(false, m);
          return;
        }
        f := WaitFor(f, AddHook);
      } else {
        f := WaitFor(f, DelayTimer);
      }
    }

    method RespondDone(r: Reply)
      requires Alive(cfg, f, t) && Posting(f.waiting, Respond) && t.answer == Meaning(Respond, r)
      modifies this`f, this`t, this`localNo
      ensures Less(cfg, f, t, old(Measure(f))) && t.answer == old(t.answer)
      ensures if t.answer == Accepted then f == WaitFor(old(f), PollTimer) && t == old(t)
              else Ends(cfg, old(f), f, t, false)
    {
      ghost var m := Measure(f);
      hide Alive, Less, Ends, Measure, Unreliable;
      AliveInv();
      if (!r.ok || (r.code != 200 && r.code != 202)) && !(r.ok && r.code == 400) {
        Finish(false, m);
        return;
      }
      PollAgain(cfg, f, t);
      f := WaitFor(f, PollTimer);
    }

    /** An authorization poll: valid leads to finalize, through the remove hook if a record is out; pending polls again. */
    method PollDone(r: Reply)
      requires Alive(cfg, f, t) && Posting(f.waiting, PollAuthz) && t.answer == Meaning(PollAuthz, r)
      modifies this`f, this`t, this`localNo
      ensures Less(cfg, f, t, old(Measure(f))) && t.answer == old(t.answer)
      ensures t.answer == Authorized ==> Unpublishes(cfg, old(f), f, t, cfg.local(old(localNo)), Sound(old(localNo)))
      ensures t.answer == StillPending ==> f == WaitFor(old(f), PollTimer) && t == old(t)
      ensures t.answer == Refused ==> Ends(cfg, old(f), f, t, false)
    {
      ghost var m := Measure(f);
      hide Alive, Less, Ends, Unpublishes, Measure, Unreliable;
      AliveInv();
      var usable := r.ok && r.code == 200;
      if usable && r.status == Valid {
        AuthzValid();
      } else if usable && r.status == Pending {
        PollAgain(cfg, f, t);
        f := WaitFor(f, PollTimer);
      } else {
        Finish(false, m);
      }
    }

    /** Validation is over: take the answer down, through the remove hook if a record is out, then finalize. */
    method AuthzValid()
      requires Alive(cfg, f, t) && Posting(f.waiting, PollAuthz) && t.answer == Authorized
      modifies this`f, this`t, this`localNo
      ensures Less(cfg, f, t, old(Measure(f))) && t.answer == old(t.answer)
      ensures Unpublishes(cfg, old(f), f, t, cfg.local(old(localNo)), Sound(old(localNo)))
    {
      UnpublishForms(cfg, f);
      hide Alive, Less, Ends, Begins, Unpublishes, Measure, Unreliable, Excused, Sound;
      if f.dnsSet && cfg.hasRemove {
        ValidThroughHook();
      } else {
        ghost var m := Measure(f);
        ValidDirect(cfg, f, t);
        f := Unpublished(f);
        AfterKeygen(m);
      }
    }

    /** The record goes through the hook; the hook is skipped when it cannot be spawned. */
    method ValidThroughHook()
      requires Alive(cfg, f, t) && Posting(f.waiting, PollAuthz) && t.answer == Authorized && f.dnsSet && cfg.hasRemove
      modifies this`f, this`t, this`localNo
      ensures Less(cfg, f, t, old(Measure(f))) && t.answer == old(t.answer)
      ensures if cfg.local(old(localNo)) then f == HookFirst(old(f))
              else Begins(cfg, Unpublished(old(f)), f, t, false) && !Sound(old(localNo))
    {
      ghost var m := Measure(f);
      ValidHook(cfg, f, t);
      AliveInv();
      BeginForms(cfg, Unpublished(f), t);
      hide *;
      t := OneHook(t);
      var spawned := Local();
      if spawned {
        f := HookFirst(f);
        return;
      }
      f := Unpublished(f);
      AfterKeygen(m);
      Unsound(old(localNo), old(localNo));
    }

    /** From here on only issuance is left. */
    method AfterKeygen(ghost m: int)
      requires Alive(cfg, f, t) && f.waiting == Keygen && Measure(f) < m
      modifies this`f, this`t, this`localNo
      ensures Less(cfg, f, t, m) && t.answer == old(t.answer) && localNo >= old(localNo)
      ensures Begins(cfg, old(f), f, t, Sound(old(localNo)))
    {
      KeygenStart(cfg, f, t);
      AliveInv();
      hide Alive, Startable, Ends, Begins, Measure, Unreliable, Excused, Inv;
      StartFinalize(m);
    }

    /** Finalize: accepted, or rejected too early and worth one recovery through the order poll. */
    method FinalizeDone(r: Reply)
      requires Alive(cfg, f, t) && Posting(f.waiting, Finalize) && t.answer == Meaning(Finalize, r)
      modifies this`f, this`t, this`localNo
      ensures Less(cfg, f, t, old(Measure(f))) && t.answer == old(t.answer)
      ensures if t.answer == Finalizing && (r.code == 200 || !old(f).finalizeRetried)
              then f == WaitFor(old(f), OrderTimer) && t == old(t)
              else Ends(cfg, old(f), f, t, false)
    {
      ghost var m := Measure(f);
      FinalizeExcused(cfg, f, t);
      hide Alive, Less, Ends, Measure, Unreliable, Excused;
      AliveInv();
      if !r.ok || r.code != 200 {
        if !(r.ok && (r.code == 400 || r.code == 403) && !f.finalizeRetried) {
          Finish(false, m);
          return;
        }
      }
      OrderAgain(cfg, f, t);
      f := WaitFor(f, OrderTimer);
    }

    /** An order poll: download, finalize once more, poll again or give up. */
    method PollOrderDone(r: Reply)
      requires Alive(cfg, f, t) && Posting(f.waiting, PollOrder) && t.answer == Meaning(PollOrder, r)
      modifies this`f, this`t, this`localNo
      ensures Less(cfg, f, t, old(Measure(f))) && t.answer == old(t.answer)
      ensures t.answer == Issued ==> Sends(cfg, old(f), f, t, Download, cfg.local(old(localNo)))
      ensures t.answer == OrderReady ==>
                if old(f).finalizeRetried then Ends(cfg, old(f), f, t, false)
                else Begins(cfg, FinalizedOnce(old(f)), f, t, Sound(old(localNo)))
      ensures t.answer == OrderPending ==> f == WaitFor(old(f), OrderTimer) && t == old(t)
      ensures t.answer == Refused ==> Ends(cfg, old(f), f, t, false)
    {
      ghost var m := Measure(f);
      hide Alive, Less, Ends, Sends, Sendable, Begins, Measure, Unreliable;
      AliveInv();
      var transient := !r.ok || r.code != 200;
      if !transient && r.status == Valid && r.usable {
        ToDownload(cfg, f, t);
        Submit(Download, m);
      } else if !transient && r.status == Ready {
        Refinalize();
      } else if transient || r.status == Pending {
        OrderAgain(cfg, f, t);
        f := WaitFor(f, OrderTimer);
      } else {
        Finish(false, m);
      }
    }

    /** The order became ready after an early finalize: finalize once more, never twice. */
    method Refinalize()
      requires Alive(cfg, f, t) && Posting(f.waiting, PollOrder) && t.answer == OrderReady
      modifies this`f, this`t, this`localNo
      ensures Less(cfg, f, t, old(Measure(f))) && t.answer == old(t.answer)
      ensures if old(f).finalizeRetried then Ends(cfg, old(f), f, t, false)
              else Begins(cfg, FinalizedOnce(old(f)), f, t, Sound(old(localNo)))
    {
      ghost var m := Measure(f);
      hide Alive, Less, Ends, Measure, Unreliable;
      AliveInv();
      if f.finalizeRetried {
        Finish(false, m);
        return;
      }
      FinalizeAgain(cfg, f, t);
      BeginsFrom(cfg, FinalizedOnce(f));
      hide Begins;
      f := WaitFor(FinalizedOnce(f), Keygen);
      AfterKeygen(m);
    }

    /** The download: one recovery through the order poll, then validate and store. */
    method DownloadDone(r: Reply)
      requires Alive(cfg, f, t) && Posting(f.waiting, Download) && t.answer == Meaning(Download, r)
      modifies this`f, this`t, this`localNo
      ensures Less(cfg, f, t, old(Measure(f))) && t.answer == old(t.answer)
      ensures t.answer == Downloaded ==> Ends(cfg, old(f), f, t, cfg.local(old(localNo)))
      ensures t.answer == Redownload && !old(f).downloadRetried ==>
                f == old(f).(downloadRetried := true, orderPollTries := 0, waiting := OrderTimer) && t == old(t)
      ensures t.answer == Refused || (t.answer == Redownload && old(f).downloadRetried) ==> Ends(cfg, old(f), f, t, false)
    {
      ghost var m := Measure(f);
      hide Alive, Less, Ends, Measure, Unreliable;
      AliveInv();
      if !r.ok || r.code != 200 || !r.usable {
        if !f.downloadRetried && (!r.ok || (r.code >= 400 && r.code != 404)) {
          DownloadAgain(cfg, f, t);
          f := DownloadedOnce(f);
          return;
        }
        Finish(false, m);
        return;
      }
      var stored := Local();
      Finish(stored, m);
    }

    method Deliver(kind: Kind, r: Reply)
      requires Alive(cfg, f, t) && Posting(f.waiting, kind)
      modifies this`f, this`t, this`localNo
      ensures Less(cfg, f, t, old(Measure(f))) && t.answer == Meaning(kind, r)
    {
      PostingWaits(f, kind);
      AnswerGood(cfg, f, t, Meaning(kind, r));
      hide Alive, Less, Ends, Sends, Begins, Published, Unpublishes, Measure, Unreliable;
      t := Heard(t, Meaning(kind, r));
      match kind
      case NewOrder => NewOrderDone(r);
      case GetAuthz => AuthzDone(r);
      case Respond => RespondDone(r);
      case PollAuthz => PollDone(r);
      case Finalize => FinalizeDone(r);
      case PollOrder => PollOrderDone(r);
      case Download => DownloadDone(r);
    }

    // ------------------------------------------------- the account layer

    /** A reply to a signed POST: a first badNonce fetches a fresh nonce, anything else goes to the order. */
    method PostDone(r: Reply)
      requires Alive(cfg, f, t) && f.waiting.Post?
      modifies this`f, this`t, this`localNo
      ensures Less(cfg, f, t, old(Measure(f)))
      ensures Stale(old(f).waiting, r) && cfg.local(old(localNo)) ==> f == WaitFor(old(f), Renonce(old(f).waiting.kind)) && t == old(t)
      ensures Stale(old(f).waiting, r) && !cfg.local(old(localNo)) ==> t.answer == Meaning(old(f).waiting.kind, Failure)
      ensures !Stale(old(f).waiting, r) ==> t.answer == Meaning(old(f).waiting.kind, r)
    {
      hide Alive, Less, Measure, Unreliable, Meaning;
      var kind := f.waiting.kind;
      ghost var m := Measure(f);
      if r.ok && !f.waiting.retried && r.code >= 400 && r.badNonce {
        NonceRejected(cfg, f, t);
        f := WaitFor(f, Renonce(kind));
        AliveInv();
        var ok := Local();
        if !ok {
          DeliverWithin(kind, Failure, m);
        }
        return;
      }
      Deliver(kind, r);
    }

    method DeliverWithin(kind: Kind, r: Reply, ghost m: int)
      requires Alive(cfg, f, t) && Posting(f.waiting, kind) && Measure(f) <= m
      modifies this`f, this`t, this`localNo
      ensures Less(cfg, f, t, m) && t.answer == Meaning(kind, r)
    {
      hide Alive, Measure, Meaning, Inv;
      Deliver(kind, r);
    }

    /** A fresh nonce arrived: the same POST goes out once more. Without one the order sees a failure. */
    method RenonceDone(r: Reply)
      requires Alive(cfg, f, t) && f.waiting.Renonce?
      modifies this`f, this`t, this`localNo
      ensures Less(cfg, f, t, old(Measure(f)))
      ensures if r.ok && (r.code == 200 || r.code == 204) && r.usable && cfg.local(old(localNo))
              then f == WaitFor(old(f), Post(old(f).waiting.kind, true)) && t.sent == old(t.sent) && t.answer == old(t.answer)
                   && t.sends == old(t.sends)[|old(t.sends)| - 1 := 2]
              else t.answer == Meaning(old(f).waiting.kind, Failure)
    {
      hide Alive, Less, Measure, Unreliable, Meaning;
      var kind := f.waiting.kind;
      Resent(cfg, f, t);
      AliveInv();
      var ok := Local();
      if r.ok && (r.code == 200 || r.code == 204) && r.usable && ok {
        t := SentTwice(t);
        f := WaitFor(f, Post(f.waiting.kind, true));
        return;
      }
      Deliver(kind, Failure);
    }

    // ------------------------------------------------- timers and hooks

    method PollTimerFires()
      requires Alive(cfg, f, t) && f.waiting == PollTimer
      modifies this`f, this`t, this`localNo
      ensures Less(cfg, f, t, old(Measure(f)))
      ensures old(f).pollTries < AUTHZ_POLLS ==> f.pollTries == old(f).pollTries + 1
      ensures if old(f).pollTries >= AUTHZ_POLLS then Ends(cfg, old(f), f, t, false)
              else Sends(cfg, OnePoll(old(f)), f, t, PollAuthz, cfg.local(old(localNo)))
    {
      ghost var m := Measure(f);
      BudgetSpent(cfg, f, t);
      AliveInv();
      hide Alive, Less, Ends, Sends, Sendable, Measure, Unreliable, Excused;
      if f.pollTries + 1 > AUTHZ_POLLS {
        Finish(false, m);
        return;
      }
      PollTick(cfg, f, t);
      f := OnePoll(f);
      Submit(PollAuthz, m);
    }

    method OrderTimerFires()
      requires Alive(cfg, f, t) && f.waiting == OrderTimer
      modifies this`f, this`t, this`localNo
      ensures Less(cfg, f, t, old(Measure(f)))
      ensures old(f).orderPollTries < ORDER_POLLS ==> f.orderPollTries == old(f).orderPollTries + 1
      ensures if old(f).orderPollTries >= ORDER_POLLS then Ends(cfg, old(f), f, t, false)
              else Sends(cfg, OneOrderPoll(old(f)), f, t, PollOrder, cfg.local(old(localNo)))
    {
      ghost var m := Measure(f);
      BudgetSpent(cfg, f, t);
      AliveInv();
      hide Alive, Less, Ends, Sends, Sendable, Measure, Unreliable, Excused;
      if f.orderPollTries + 1 > ORDER_POLLS {
        Finish(false, m);
        return;
      }
      OrderTick(cfg, f, t);
      f := OneOrderPoll(f);
      Submit(PollOrder, m);
    }

    /** The add hook ended: wait for propagation, or fail the order. */
    method AddHookDone(exitOk: bool)
      requires Alive(cfg, f, t) && f.waiting == AddHook
      modifies this`f, this`t, this`localNo
      ensures Less(cfg, f, t, old(Measure(f)))
      ensures if exitOk then f == WaitFor(old(f), DelayTimer) && t == old(t) else Ends(cfg, old(f), f, t, false)
    {
      ghost var m := Measure(f);
      HookWaits(cfg, f, t);
      AliveInv();
      hide Alive, Less, Ends, Measure, Unreliable, Excused;
      if exitOk {
        f := WaitFor(f, DelayTimer);
      } else {
        t := HookFailed(t);
        Finish(false, m);
      }
    }

    /** The propagation delay is over: tell the CA. */
    method DelayOver()
      requires Alive(cfg, f, t) && f.waiting == DelayTimer
      modifies this`f, this`t, this`localNo
      ensures Less(cfg, f, t, old(Measure(f))) && Sends(cfg, old(f), f, t, Respond, cfg.local(old(localNo)))
    {
      ghost var m := Measure(f);
      ToRespond(cfg, f, t);
      AliveInv();
      hide Alive, Less, Ends, Sends, Sendable, Measure, Unreliable;
      Submit(Respond, m);
    }

    /** The remove hook ended, well or badly: finalize, or call the handler the order was holding back. */
    method RemoveHookDone()
      requires Inv(cfg, f, t) && f.waiting == RemoveHook
      modifies this`f, this`t, this`localNo
      ensures Less(cfg, f, t, old(Measure(f)))
      ensures if old(f).afterAuthz
              then Begins(cfg, HookDone(old(f)), f, t, Sound(old(localNo)))
              else f == HookOver(old(f))
                   && t.calls == 1 && t.result == old(f).finishRc
    {
      ghost var m := Measure(f);
      hide Alive, Less, Inv, Measure, Unreliable;
      if f.afterAuthz {
        HookToKeygen(cfg, f, t);
        BeginsFrom(cfg, HookDone(f));
        hide Begins;
        f := WaitFor(HookDone(f), Keygen);
        AfterKeygen(m);
        return;
      }
      HookEnds(cfg, f, t);
      f := HookOver(f);
      t := Called(t, f.finishRc);
    }

    method KeygenDone()
      requires Alive(cfg, f, t) && f.waiting == Keygen
      modifies this`f, this`t, this`localNo
      ensures Less(cfg, f, t, old(Measure(f)))
      ensures if cfg.local(old(localNo)) then Sends(cfg, old(f), f, t, Finalize, cfg.local(old(localNo) + 1))
              else Ends(cfg, old(f), f, t, false)
    {
      hide *;
      ghost var m := Measure(f);
      AliveInv();
      KeygenStart(cfg, f, t);
      StartableParts();
      var ok := Local();
      if !ok {
        Finish(false, m);
        return;
      }
      Submit(Finalize, m);
    }

    /** Whatever the order waits for happens. */
    method Step()
      requires Inv(cfg, f, t) && f.waiting != Finished && f.waiting != InHandler
      modifies this
      ensures Less(cfg, f, t, old(Measure(f))) && replyNo == old(replyNo) + 1
      ensures var r := replies(old(replyNo));
              match old(f).waiting
              case Directory => t.answer == if r.ok && r.code == 200 && r.usable then Discovered else Refused
              case Post(kind, _) => Stale(old(f).waiting, r) || t.answer == Meaning(kind, r)
              case Renonce(kind) =>
                || t.answer == Meaning(kind, Failure)
                || (r.ok && (r.code == 200 || r.code == 204) && r.usable && f == WaitFor(old(f), Post(kind, true)))
              case AddHook => if r.ok then f == WaitFor(old(f), DelayTimer) else Ends(cfg, old(f), f, t, false)
              case _ => true
    {
      var r := NextReply();
      if f.waiting != RemoveHook {
        WaitingAlive(cfg, f, t);
      }
      hide Alive, Less, Inv, Ends, Sends, Begins, Measure, Meaning;
      match f.waiting
      case Directory => DirectoryDone(r);
      case Post(_, _) => PostDone(r);
      case Renonce(_) => RenonceDone(r);
      case AddHook => AddHookDone(r.ok);
      case DelayTimer => DelayOver();
      case PollTimer => PollTimerFires();
      case RemoveHook => RemoveHookDone();
      case Keygen => KeygenDone();
      case OrderTimer => OrderTimerFires();
    }
  }

  /**
   An order against any CA, any local failures and any hook results. It ends;
   its handler is called exactly once, with success only after a downloaded
   certificate; it stays within its poll, finalize, download and hook budgets;
   each POST was called for by the answer before it and went out at most
   twice, and exactly the first of them is newOrder; and no challenge answer is
   left published. It gives up only when the CA, a hook, a budget or a local
   fault leaves it no choice.
   */
  method RunOrder(cfg: Config, replies: nat -> Reply) returns (f: Fields, t: Tally)
    ensures t.calls == 1 && if t.result then t.answer == Downloaded else Excused(f, t)
    ensures (forall k :: cfg.local(k)) ==> !t.faulted
    ensures Many(t.sent, PollAuthz) <= 180 && Many(t.sent, PollOrder) <= 360
    ensures Many(t.sent, Finalize) <= 2 && Many(t.sent, Download) <= 2 && t.addHooks + t.removeHooks <= 2
    ensures forall i :: 0 <= i < |t.sent| ==> Justified(t.sent[i].0, t.sent[i].1)
    ensures forall i :: 0 <= i < |t.sent| ==> (t.sent[i].0 == NewOrder <==> i == 0)
    ensures |t.sends| == |t.sent| && forall i :: 0 <= i < |t.sends| ==> 1 <= t.sends[i] <= 2
    ensures !f.challengeSet && !f.alpnSet && !f.dnsSet
    ensures t.addHooks == 1 && cfg.hasRemove ==> t.removeHooks == 1
  {
    var o := new Order(cfg, replies);
    while o.f.waiting != Finished
      invariant fresh(o) && o.cfg == cfg && Inv(cfg, o.f, o.t) && o.f.waiting != InHandler
      decreases Measure(o.f) + 1
    {
      MeasureNonNegative(cfg, o.f, o.t);
      o.Step();
    }
    f, t := o.f, o.t;
  }
}
