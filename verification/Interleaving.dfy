/**
 Weaving the session's own items into the transcript (src/core.rs:4674-4754). The layout is stated as
 a sort key on pieces: what comes out is every expected piece exactly once, in strictly rising key
 order, which fixes the whole sequence.
 */
module Interleaving {
  import opened Prelude
  import opened Sorting
  import opened History

  /** What is woven: the roles decide the place of session items, the rest are counts and positions. */
  datatype Inputs = Inputs(
    messages: seq<ChatMessage>,
    attachmentSources: seq<Option<nat>>,
    hasWorkState: bool,
    workStatePosition: Option<nat>,
    sessionCount: nat)

  /** One context item: the goal, plan, todo and checkpoint items in that order are the session pieces. */
  datatype Piece =
    | WorkStatePiece
    | SessionPiece(k: nat)
    | MessagePiece(index: nat, latestUser: bool)
    | AttachmentPiece(source: nat, k: nat)

  function LastUser(messages: seq<ChatMessage>, n: nat): (at: Option<nat>)
    requires n <= |messages|
    ensures at.Some? ==> at.value < n && messages[at.value].role.User?
    ensures forall j | (if at.Some? then at.value + 1 else 0) <= j < n :: !messages[j].role.User?
  {
    if n == 0 then None else if messages[n - 1].role.User? then Some(n - 1) else LastUser(messages, n - 1)
  }

  /** Right before the last user message, or after all messages when there is none. */
  function SessionPosition(input: Inputs): (p: nat)
    ensures p <= |input.messages| && (p < |input.messages| ==> input.messages[p].role == User)
    ensures forall j | p < j < |input.messages| :: input.messages[j].role != User
    ensures p == |input.messages| ==> forall j | 0 <= j < |input.messages| :: input.messages[j].role != User
  {
    LastUser(input.messages, |input.messages|).GetOr(|input.messages|)
  }

  function WorkPosition(input: Inputs): (p: Option<nat>)
    ensures p.Some? ==> p.value <= |input.messages|
  {
    if !input.hasWorkState || input.workStatePosition.None? then None
    else
      var p := input.workStatePosition.value;
      Some(if p < |input.messages| then p else |input.messages|)
  }

  predicate InRange(input: Inputs, k: nat)
    requires k < |input.attachmentSources|
  {
    input.attachmentSources[k].Some? && input.attachmentSources[k].value < |input.messages|
  }

  /** The message an attachment is filed under; without a source, the last one. */
  function SourceFor(input: Inputs, k: nat): nat
    requires k < |input.attachmentSources|
  {
    input.attachmentSources[k].GetOr(if input.messages == [] then 0 else |input.messages| - 1)
  }

  // ----- the layout

  ghost predicate Expected(input: Inputs, x: Piece) {
    match x
    case WorkStatePiece => input.hasWorkState
    case SessionPiece(k) => k < input.sessionCount
    case MessagePiece(i, latest) =>
      i < |input.messages| && (latest <==> i == SessionPosition(input) && input.messages[i].role.User?)
    case AttachmentPiece(source, k) => k < |input.attachmentSources| && source == SourceFor(input, k)
  }

  /**
   Position in the transcript, then kind, then number. At one position: the work state, the session
   items, the message, its attachments. After everything: a work state without a position, and last
   the attachments whose source is missing or out of range.
   */
  ghost function Place(input: Inputs, x: Piece): RankKey {
    match x
    case WorkStatePiece => RankKey(WorkPosition(input).GetOr(|input.messages| + 1), 0, 0)
    case SessionPiece(k) => RankKey(SessionPosition(input), 1, k)
    case MessagePiece(i, _) => RankKey(i, 2, 0)
    case AttachmentPiece(source, k) =>
      if k < |input.attachmentSources| && InRange(input, k) then RankKey(source, 3, k)
      else RankKey(|input.messages| + 2, 0, k)
  }

  ghost predicate InPlace(input: Inputs, pieces: seq<Piece>) {
    forall i, j | 0 <= i < j < |pieces| :: RankBefore(Place(input, pieces[i]), Place(input, pieces[j]))
  }

  ghost predicate WovenUpTo(input: Inputs, pieces: seq<Piece>, bound: RankKey) {
    && InPlace(input, pieces)
    && forall x :: x in pieces <==> Expected(input, x) && RankBefore(Place(input, x), bound)
  }

  lemma Nothing(input: Inputs, pieces: seq<Piece>, bound: RankKey, next: RankKey)
    requires WovenUpTo(input, pieces, bound) && RankLeq(bound, next)
    requires forall x | Expected(input, x) && RankLeq(bound, Place(input, x)) :: !RankBefore(Place(input, x), next)
    ensures WovenUpTo(input, pieces, next)
  {
    hide Place, Expected;
  }

  lemma One(input: Inputs, pieces: seq<Piece>, bound: RankKey, piece: Piece, next: RankKey)
    requires WovenUpTo(input, pieces, bound) && Expected(input, piece)
    requires RankLeq(bound, Place(input, piece)) && RankBefore(Place(input, piece), next)
    requires forall x | Expected(input, x) && RankLeq(bound, Place(input, x)) && RankBefore(Place(input, x), next) ::
      x == piece
    ensures WovenUpTo(input, pieces + [piece], next)
  {
    hide Place, Expected;
    var more := pieces + [piece];
    forall x ensures x in more <==> Expected(input, x) && RankBefore(Place(input, x), next) {
      assert x in more <==> x in pieces || x == piece;
    }
    forall i, j | 0 <= i < j < |more| ensures RankBefore(Place(input, more[i]), Place(input, more[j])) {
      if j == |pieces| {
        assert pieces[i] in pieces;
      }
    }
  }

  function Sessions(n: nat): (s: seq<Piece>)
    ensures |s| == n
  {
    seq(n, k requires 0 <= k < n => SessionPiece(k))
  }

  lemma {:induction false} AllSessions(input: Inputs, pieces: seq<Piece>, n: nat)
    requires n <= input.sessionCount
    requires WovenUpTo(input, pieces, RankKey(SessionPosition(input), 1, 0))
    ensures WovenUpTo(input, pieces + Sessions(n), RankKey(SessionPosition(input), 1, n))
  {
    if n == 0 {
      assert pieces + Sessions(0) == pieces;
    } else {
      AllSessions(input, pieces, n - 1);
      One(input, pieces + Sessions(n - 1), RankKey(SessionPosition(input), 1, n - 1), SessionPiece(n - 1),
          RankKey(SessionPosition(input), 1, n));
      assert pieces + Sessions(n) == pieces + Sessions(n - 1) + [SessionPiece(n - 1)];
    }
  }

  /** `message_and_session_context_items`: every expected piece once, each in its place. */
  method Interleave(input: Inputs) returns (pieces: seq<Piece>)
    ensures IsWeave(input, pieces)
  {
    hide WovenUpTo;
    var n := |input.messages|;
    var workStatePosition := WorkPosition(input);
    var sessionPosition := SessionPosition(input);
    var workPending, sessionPending := input.hasWorkState, true;
    var attached: set<nat> := {};
    pieces := [];
    NothingWoven(input);
    for position := 0 to n + 1
      invariant WovenUpTo(input, pieces, RankKey(position, 0, 0))
      invariant workPending <==> input.hasWorkState && (workStatePosition.None? || position <= workStatePosition.value)
      invariant sessionPending <==> position <= sessionPosition
      invariant attached == set k: nat | k < |input.attachmentSources| && input.attachmentSources[k].Some?
                                         && input.attachmentSources[k].value < position && InRange(input, k)
    {
      WorkStep(input, pieces, position);
      if workStatePosition == Some(position) && workPending {
        pieces := pieces + [WorkStatePiece];
        workPending := false;
      }
      SessionStep(input, pieces, position);
      if sessionPosition == position && sessionPending {
        pieces := pieces + Sessions(input.sessionCount);
        sessionPending := false;
      }
      if position == n {
        EndStep(input, pieces);
        continue;
      }
      var latest := position == sessionPosition && input.messages[position].role.User?;
      MessageStep(input, pieces, position, latest);
      pieces := pieces + [MessagePiece(position, latest)];
      for k := 0 to |input.attachmentSources|
        invariant WovenUpTo(input, pieces, RankKey(position, 3, k))
        invariant attached == set j: nat |
          && j < |input.attachmentSources| && input.attachmentSources[j].Some? && InRange(input, j)
          && (input.attachmentSources[j].value < position || (input.attachmentSources[j].value == position && j < k))
      {
        AttachmentStep(input, pieces, position, k);
        if input.attachmentSources[k] == Some(position) {
          pieces := pieces + [AttachmentPiece(position, k)];
          attached := attached + {k};
        }
      }
      NextPosition(input, pieces, position);
    }
    LateWorkStep(input, pieces);
    if workPending {
      pieces := pieces + [WorkStatePiece];
    }
    if sessionPending {
      pieces := pieces + Sessions(input.sessionCount);
    }
    for k := 0 to |input.attachmentSources|
      invariant WovenUpTo(input, pieces, RankKey(n + 2, 0, k))
    {
      LooseStep(input, pieces, k);
      if k !in attached {
        pieces := pieces + [AttachmentPiece(SourceFor(input, k), k)];
      }
    }
    Everything(input, pieces);
  }

  // ----- one step of the weave each

  lemma NothingWoven(input: Inputs)
    ensures WovenUpTo(input, [], RankKey(0, 0, 0))
  {
  }

  lemma WorkStep(input: Inputs, pieces: seq<Piece>, position: nat)
    requires position <= |input.messages| && WovenUpTo(input, pieces, RankKey(position, 0, 0))
    ensures WovenUpTo(input, if WorkPosition(input) == Some(position) then pieces + [WorkStatePiece] else pieces,
                      RankKey(position, 1, 0))
  {
    if WorkPosition(input) == Some(position) {
      One(input, pieces, RankKey(position, 0, 0), WorkStatePiece, RankKey(position, 1, 0));
    } else {
      Nothing(input, pieces, RankKey(position, 0, 0), RankKey(position, 1, 0));
    }
  }

  lemma SessionStep(input: Inputs, pieces: seq<Piece>, position: nat)
    requires position <= |input.messages| && WovenUpTo(input, pieces, RankKey(position, 1, 0))
    ensures WovenUpTo(input,
                      if SessionPosition(input) == position then pieces + Sessions(input.sessionCount) else pieces,
                      RankKey(position, 2, 0))
  {
    if SessionPosition(input) == position {
      AllSessions(input, pieces, input.sessionCount);
      Nothing(input, pieces + Sessions(input.sessionCount),
              RankKey(position, 1, input.sessionCount), RankKey(position, 2, 0));
    } else {
      Nothing(input, pieces, RankKey(position, 1, 0), RankKey(position, 2, 0));
    }
  }

  lemma MessageStep(input: Inputs, pieces: seq<Piece>, position: nat, latest: bool)
    requires position < |input.messages| && WovenUpTo(input, pieces, RankKey(position, 2, 0))
    requires latest <==> position == SessionPosition(input) && input.messages[position].role.User?
    ensures WovenUpTo(input, pieces + [MessagePiece(position, latest)], RankKey(position, 3, 0))
  {
    One(input, pieces, RankKey(position, 2, 0), MessagePiece(position, latest), RankKey(position, 3, 0));
  }

  lemma AttachmentStep(input: Inputs, pieces: seq<Piece>, position: nat, k: nat)
    requires position < |input.messages| && k < |input.attachmentSources|
    requires WovenUpTo(input, pieces, RankKey(position, 3, k))
    ensures WovenUpTo(input,
                      if input.attachmentSources[k] == Some(position) then pieces + [AttachmentPiece(position, k)]
                      else pieces,
                      RankKey(position, 3, k + 1))
  {
    if input.attachmentSources[k] == Some(position) {
      One(input, pieces, RankKey(position, 3, k), AttachmentPiece(position, k), RankKey(position, 3, k + 1));
    } else {
      Nothing(input, pieces, RankKey(position, 3, k), RankKey(position, 3, k + 1));
    }
  }

  lemma NextPosition(input: Inputs, pieces: seq<Piece>, position: nat)
    requires position < |input.messages|
    requires WovenUpTo(input, pieces, RankKey(position, 3, |input.attachmentSources|))
    ensures WovenUpTo(input, pieces, RankKey(position + 1, 0, 0))
  {
    Nothing(input, pieces, RankKey(position, 3, |input.attachmentSources|), RankKey(position + 1, 0, 0));
  }

  lemma EndStep(input: Inputs, pieces: seq<Piece>)
    requires WovenUpTo(input, pieces, RankKey(|input.messages|, 2, 0))
    ensures WovenUpTo(input, pieces, RankKey(|input.messages| + 1, 0, 0))
  {
    Nothing(input, pieces, RankKey(|input.messages|, 2, 0), RankKey(|input.messages| + 1, 0, 0));
  }

  lemma LateWorkStep(input: Inputs, pieces: seq<Piece>)
    requires WovenUpTo(input, pieces, RankKey(|input.messages| + 1, 0, 0))
    ensures WovenUpTo(input,
                      if input.hasWorkState && WorkPosition(input).None? then pieces + [WorkStatePiece] else pieces,
                      RankKey(|input.messages| + 2, 0, 0))
  {
    if input.hasWorkState && WorkPosition(input).None? {
      One(input, pieces, RankKey(|input.messages| + 1, 0, 0), WorkStatePiece, RankKey(|input.messages| + 2, 0, 0));
    } else {
      Nothing(input, pieces, RankKey(|input.messages| + 1, 0, 0), RankKey(|input.messages| + 2, 0, 0));
    }
  }

  lemma LooseStep(input: Inputs, pieces: seq<Piece>, k: nat)
    requires k < |input.attachmentSources| && WovenUpTo(input, pieces, RankKey(|input.messages| + 2, 0, k))
    ensures WovenUpTo(input, if !InRange(input, k) then pieces + [AttachmentPiece(SourceFor(input, k), k)] else pieces,
                      RankKey(|input.messages| + 2, 0, k + 1))
  {
    if !InRange(input, k) {
      One(input, pieces, RankKey(|input.messages| + 2, 0, k), AttachmentPiece(SourceFor(input, k), k),
          RankKey(|input.messages| + 2, 0, k + 1));
    } else {
      Nothing(input, pieces, RankKey(|input.messages| + 2, 0, k), RankKey(|input.messages| + 2, 0, k + 1));
    }
  }

  lemma Everything(input: Inputs, pieces: seq<Piece>)
    requires WovenUpTo(input, pieces, RankKey(|input.messages| + 2, 0, |input.attachmentSources|))
    ensures IsWeave(input, pieces)
  {
  }

  // ----- what the layout means

  /** Nothing is duplicated. */
  lemma EachPieceOnce(input: Inputs, pieces: seq<Piece>)
    requires InPlace(input, pieces)
    ensures forall i, j | 0 <= i < j < |pieces| :: pieces[i] != pieces[j]
  {
    hide Place;
    forall i, j | 0 <= i < j < |pieces| ensures pieces[i] != pieces[j] {
      assert RankBefore(Place(input, pieces[i]), Place(input, pieces[j]));
    }
  }

  lemma TailMembers(input: Inputs, pieces: seq<Piece>)
    requires InPlace(input, pieces) && pieces != []
    ensures forall x :: x in pieces[1..] <==> x in pieces && x != pieces[0]
  {
    hide Place;
    EachPieceOnce(input, pieces);
    assert pieces == [pieces[0]] + pieces[1..];
    forall x ensures x in pieces[1..] <==> x in pieces && x != pieces[0] {
    }
  }

  /** The layout is the only one: two weaves of the same inputs are the same sequence. */
  lemma {:induction false} LayoutIsUnique(input: Inputs, a: seq<Piece>, b: seq<Piece>)
    requires InPlace(input, a) && InPlace(input, b) && forall x :: x in a <==> x in b
    ensures a == b
    decreases |a|
  {
    hide Place;
    var x := if a != [] then a[0] else if b != [] then b[0] else WorkStatePiece;
    assert x in a || x in b || a == b;
    if a == [] || b == [] {
    } else {
      assert a[0] in b && b[0] in a;
      FirstIsFirst(input, a, b[0]);
      FirstIsFirst(input, b, a[0]);
      TailMembers(input, a);
      TailMembers(input, b);
      LayoutIsUnique(input, a[1..], b[1..]);
      assert a == [a[0]] + a[1..] && b == [b[0]] + b[1..];
    }
  }

  lemma FirstIsFirst(input: Inputs, pieces: seq<Piece>, x: Piece)
    requires InPlace(input, pieces) && x in pieces
    ensures x == pieces[0] || RankBefore(Place(input, pieces[0]), Place(input, x))
  {
    hide Place;
    var i :| 0 <= i < |pieces| && pieces[i] == x;
  }

  ghost predicate IsWeave(input: Inputs, pieces: seq<Piece>) {
    InPlace(input, pieces) && forall x :: x in pieces <==> Expected(input, x)
  }

  /** Messages keep their order. */
  lemma MessagesKeepTheirOrder(input: Inputs, pieces: seq<Piece>, a: nat, b: nat)
    requires IsWeave(input, pieces) && a < b < |pieces| && pieces[a].MessagePiece? && pieces[b].MessagePiece?
    ensures pieces[a].index < pieces[b].index
  {
    assert RankBefore(Place(input, pieces[a]), Place(input, pieces[b]));
  }

  /** The session items stand together. */
  lemma SessionItemsStandTogether(input: Inputs, pieces: seq<Piece>, a: nat, i: nat, b: nat)
    requires IsWeave(input, pieces) && a <= i <= b < |pieces|
    requires pieces[a].SessionPiece? && pieces[b].SessionPiece?
    ensures pieces[i].SessionPiece?
  {
    assert pieces[i] in pieces;
    assert i == a || RankBefore(Place(input, pieces[a]), Place(input, pieces[i]));
    assert i == b || RankBefore(Place(input, pieces[i]), Place(input, pieces[b]));
  }

  /** The piece after the last session item is the last user message, if there is one. */
  lemma SessionItemsPrecedeTheLastUser(input: Inputs, pieces: seq<Piece>, i: nat)
    requires IsWeave(input, pieces) && SessionPosition(input) < |input.messages|
    requires i < |pieces| && pieces[i].SessionPiece? && pieces[i].k == input.sessionCount - 1
    ensures i + 1 < |pieces| && pieces[i + 1] == MessagePiece(SessionPosition(input), true)
  {
    var message := MessagePiece(SessionPosition(input), true);
    assert Expected(input, message) && message in pieces;
    var m :| 0 <= m < |pieces| && pieces[m] == message;
    assert m < i ==> RankBefore(Place(input, pieces[m]), Place(input, pieces[i]));
    assert i < m;
    var next := pieces[i + 1];
    assert next in pieces;
    NothingBetween(input, pieces[i], next, message);
    assert RankBefore(Place(input, pieces[i]), Place(input, next));
    assert forall j | i + 1 < j < |pieces| :: RankBefore(Place(input, next), Place(input, pieces[j]));
  }

  lemma NothingBetween(input: Inputs, session: Piece, x: Piece, message: Piece)
    requires session.SessionPiece? && session.k == input.sessionCount - 1 && Expected(input, x)
    requires message == MessagePiece(SessionPosition(input), true)
    ensures !(RankBefore(Place(input, session), Place(input, x)) && RankBefore(Place(input, x), Place(input, message)))
  {
  }

  /** Without a user message, the session items come after every message. */
  lemma SessionItemsComeLastWithoutAUser(input: Inputs, pieces: seq<Piece>, a: nat, m: nat)
    requires IsWeave(input, pieces) && SessionPosition(input) == |input.messages|
    requires a < |pieces| && m < |pieces| && pieces[a].SessionPiece? && pieces[m].MessagePiece?
    ensures m < a
  {
    assert pieces[m] in pieces;
    assert a < m ==> RankBefore(Place(input, pieces[a]), Place(input, pieces[m]));
  }

  /** An attachment whose source is in range comes after its message and before the next one. */
  lemma AttachmentsFollowTheirMessage(input: Inputs, pieces: seq<Piece>, a: nat, m: nat)
    requires IsWeave(input, pieces) && a < |pieces| && m < |pieces|
    requires pieces[a].AttachmentPiece? && pieces[m].MessagePiece?
    requires pieces[a].k < |input.attachmentSources| && InRange(input, pieces[a].k)
    ensures m < a <==> pieces[m].index <= input.attachmentSources[pieces[a].k].value
  {
    assert pieces[a] in pieces && pieces[m] in pieces;
    assert m < a ==> RankBefore(Place(input, pieces[m]), Place(input, pieces[a]));
    assert a < m ==> RankBefore(Place(input, pieces[a]), Place(input, pieces[m]));
  }

  /**
   The work state stands before the message at its position and before the session items of that place;
   with a position past the end, or none, it follows all messages.
   */
  lemma WorkStateStands(input: Inputs, pieces: seq<Piece>, w: nat, x: nat)
    requires IsWeave(input, pieces) && w < |pieces| && x < |pieces| && pieces[w].WorkStatePiece?
    ensures pieces[x].MessagePiece? ==>
      (w < x <==> input.workStatePosition.Some? && input.workStatePosition.value <= pieces[x].index)
    ensures pieces[x].SessionPiece? ==>
      var p := SessionPosition(input);
      (w < x <==> input.workStatePosition.Some? && (input.workStatePosition.value <= p || p == |input.messages|))
    ensures pieces[x].AttachmentPiece? && pieces[x].k < |input.attachmentSources| ==>
      (w < x <==> input.attachmentSources[pieces[x].k].None?
                  || input.attachmentSources[pieces[x].k].value >= |input.messages|
                  || (input.workStatePosition.Some?
                      && input.workStatePosition.value <= input.attachmentSources[pieces[x].k].value))
  {
    assert pieces[w] in pieces && pieces[x] in pieces;
    assert w < x ==> RankBefore(Place(input, pieces[w]), Place(input, pieces[x]));
    assert x < w ==> RankBefore(Place(input, pieces[x]), Place(input, pieces[w]));
  }

  /** Session items come in their own order. */
  lemma SessionItemsKeepTheirOrder(input: Inputs, pieces: seq<Piece>, a: nat, b: nat)
    requires IsWeave(input, pieces) && a < b < |pieces| && pieces[a].SessionPiece? && pieces[b].SessionPiece?
    ensures pieces[a].k < pieces[b].k
  {
    assert RankBefore(Place(input, pieces[a]), Place(input, pieces[b]));
  }

  /** Attachments of one message, and those without a message, come in the order in which they were given. */
  lemma AttachmentsKeepTheirOrder(input: Inputs, pieces: seq<Piece>, a: nat, b: nat)
    requires IsWeave(input, pieces) && a < b < |pieces| && pieces[a].AttachmentPiece? && pieces[b].AttachmentPiece?
    requires pieces[a].k < |input.attachmentSources| && pieces[b].k < |input.attachmentSources|
    requires
      || input.attachmentSources[pieces[a].k] == input.attachmentSources[pieces[b].k]
      || (input.attachmentSources[pieces[a].k].None? && !InRange(input, pieces[b].k))
      || (input.attachmentSources[pieces[b].k].None? && !InRange(input, pieces[a].k))
    ensures pieces[a].k < pieces[b].k
  {
    assert pieces[a] in pieces && pieces[b] in pieces;
    assert RankBefore(Place(input, pieces[a]), Place(input, pieces[b]));
  }
}
