/**
 From the session to the request (src/core.rs:1241-1318, 1722-1755, 4674-4754): the latest user message
 and the attachments on their way through compaction, interleaving, deduplication and the budget.
 */
module TranscriptLaws {
  import opened Prelude
  import opened Sorting
  import opened ContextItems
  import opened Fitting
  import opened Projection
  import opened ProjectionLaws
  import opened Deduplication
  import opened Meaning
  import opened ContextPack
  import opened PackLaws
  import opened History
  import opened Interleaving
  import opened MessageItems

  // ----- a required item

  /** What is budgeted for an item: its estimate filled in, its preview taken, and cut if need be. */
  ghost predicate StandsFor(b: Builder, pack: Pack, out: ContextItem, item: ContextItem) {
    if b.fitRequiredContext && pack.budget.itemBudgetTokens.Some? then Shed(b, Limited(b, item), out)
    else out == Limited(b, item)
  }

  /** The pack carries the item, uncut or cut, in a place of its own among the deduplicated items. */
  ghost predicate IsSent(b: Builder, pack: Pack, unique: seq<ContextItem>, item: ContextItem)
    requires |unique| == |pack.items|
  {
    exists k | 0 <= k < |unique| && unique[k] == item ::
      k in Chosen(pack.trace) && StandsFor(b, pack, pack.items[k], item)
  }

  ghost predicate OwnMeaning(collected: seq<ContextItem>, fingerprint: Fingerprint, i: nat)
    requires i < |collected|
  {
    fingerprint(collected[i]).Some? ==>
      forall j | 0 <= j < |collected| && fingerprint(collected[j]) == fingerprint(collected[i]) ::
        collected[j] == collected[i]
  }

  /** The parts of a build: the deduplicated items and what fitting starts from. */
  lemma Parts(b: Builder, collected: seq<ContextItem>, fingerprint: Fingerprint, prepared: seq<ContextItem>, pack: Pack)
    returns (unique: seq<ContextItem>)
    requires IsBuilt(b, collected, fingerprint, prepared, pack)
    ensures IsDeduped(collected, unique) && |unique| == |pack.items| == |prepared|
    ensures forall k | 0 <= k < |unique| && !IsRepeat(unique, fingerprint, k) :: prepared[k] == Limited(b, unique[k])
  {
    hide IsGreedy, IsDeduped, Shed, ShedInOrder, RequiredSum, CanShrink, AtFloor, IsRepeat, Limited, RequiredDropped;
    var marked;
    unique, marked :| IsDeduped(collected, unique) && Marks(unique, fingerprint, marked) && |prepared| == |marked|
      && forall k | 0 <= k < |prepared| :: prepared[k] == Limited(b, marked[k]);
    forall k | 0 <= k < |unique| && !IsRepeat(unique, fingerprint, k) ensures prepared[k] == Limited(b, unique[k]) {
      assert MarkedAt(unique, fingerprint, k, marked[k]);
    }
  }

  lemma NoRepeat(collected: seq<ContextItem>, unique: seq<ContextItem>, fingerprint: Fingerprint, i: nat, k: nat)
    requires IsDeduped(collected, unique) && i < |collected| && k < |unique| && unique[k] == collected[i]
    requires OwnMeaning(collected, fingerprint, i)
    ensures !IsRepeat(unique, fingerprint, k)
  {
    hide FirstAt, BestAt;
    forall j | 0 <= j < k ensures unique[j] != unique[k] && IsBest(collected, |collected|, unique[j]) {
    }
  }

  lemma ItsPlaceIsTaken(b: Builder, prepared: seq<ContextItem>, pack: Pack, item: ContextItem, k: nat)
    requires |pack.trace| == |pack.items| == |prepared| && k < |prepared|
    requires IsFitted(b, prepared, pack.items, pack.budget.itemBudgetTokens) && !RequiredDropped(pack)
    requires prepared[k] == Limited(b, item) && item.Required() && !item.IsDuplicate()
    ensures k in Chosen(pack.trace) && StandsFor(b, pack, pack.items[k], item)
  {
    hide Limited, Shed, ShedInOrder, RequiredSum, CanShrink, AtFloor;
    if b.fitRequiredContext && pack.budget.itemBudgetTokens.Some? {
      ShedKeepsIdentity(b, prepared[k], pack.items[k]);
      SameMark(prepared[k], pack.items[k]);
    }
    assert pack.items[k].Required() && !pack.items[k].IsDuplicate();
    assert k in RequiredOriginals(pack.items);
  }

  /**
   Unless the pack is overflowed, a required item with a meaning of its own is sent exactly when it is the
   best-ranked copy of its id.
   */
  lemma RequiredItemIsSentIff(b: Builder, collected: seq<ContextItem>, fingerprint: Fingerprint,
                              prepared: seq<ContextItem>, pack: Pack, i: nat)
    returns (unique: seq<ContextItem>)
    requires IsBuilt(b, collected, fingerprint, prepared, pack) && !pack.budget.overflowed
    requires i < |collected| && collected[i].Required() && !collected[i].IsDuplicate()
    requires OwnMeaning(collected, fingerprint, i)
    ensures IsDeduped(collected, unique) && |unique| == |pack.items|
    ensures IsSent(b, pack, unique, collected[i]) <==> IsBest(collected, |collected|, collected[i])
  {
    hide IsGreedy, IsDeduped, IsFitted, IsPrepared, IsRepeat, Limited, IsBest, RequiredDropped, OwnMeaning;
    unique := Parts(b, collected, fingerprint, prepared, pack);
    KeptIffBest(collected, unique, i);
    if collected[i] in unique {
      var k :| 0 <= k < |unique| && unique[k] == collected[i];
      NoRepeat(collected, unique, fingerprint, i, k);
      ItsPlaceIsTaken(b, prepared, pack, collected[i], k);
    }
  }

  // ----- the latest user message

  /** The last user message, when compaction keeps it. */
  ghost predicate IsLatestUser(raw: seq<ChatMessage>, i: nat) {
    && i < |raw| && raw[i].role.User? && OutcomeOf(raw, i).Kept?
    && forall j | i < j < |raw| :: !raw[j].role.User?
  }

  /** What is woven is the transcript that is left after normalisation. */
  ghost predicate IsWovenTranscript(
    raw: seq<ChatMessage>, digest: string -> string, h: Materialized, input: Inputs, pieces: seq<Piece>)
  {
    Describes(raw, |raw|, digest, h) && input.messages == h.messages && IsWeave(input, pieces)
  }

  /** The collected items: what comes first, one item for each piece, and what comes after. */
  ghost predicate IsCollected(rendering: Rendering, input: Inputs, pieces: seq<Piece>,
                              collected: seq<ContextItem>, start: nat)
  {
    && start + |pieces| <= |collected|
    && forall k | 0 <= k < |pieces| && pieces[k].MessagePiece? && pieces[k].index < |input.messages| ::
         collected[start + k]
           == MessageItem(rendering, pieces[k].index, input.messages[pieces[k].index], pieces[k].latestUser)
  }

  /** The item at `p` is that of no message. */
  ghost predicate IsOutsider(pieces: seq<Piece>, start: nat, p: int) {
    !(start <= p < start + |pieces| && pieces[p - start].MessagePiece?)
  }

  /** No item other than those of messages takes the place of the item at `q`. */
  ghost predicate OutsidersYield(pieces: seq<Piece>, collected: seq<ContextItem>, start: nat, q: nat)
    requires q < |collected|
  {
    forall p | 0 <= p < |collected| && p != q && IsOutsider(pieces, start, p) && collected[p].id == collected[q].id ::
      if p < q then Outranks(collected[q], collected[p]) else !Outranks(collected[p], collected[q])
  }

  lemma LatestUserIsLast(raw: seq<ChatMessage>, digest: string -> string, h: Materialized, i: nat)
    requires Describes(raw, |raw|, digest, h) && IsLatestUser(raw, i)
    ensures |h.messageIndexMap| == |raw| && h.messageIndexMap[i].Some?
    ensures LastUser(h.messages, |h.messages|) == h.messageIndexMap[i]
    ensures h.messages[h.messageIndexMap[i].value] == raw[i]
  {
    hide Describes, OutcomeOf;
    PlaceOfKept(raw, digest, h, i);
    IndexMapIsExact(raw, digest, h);
    var at := h.messageIndexMap[i].value;
    forall k | at < k < |h.messages| ensures !h.messages[k].role.User? {
      var j :| 0 <= j < |raw| && h.messageIndexMap[j] == Some(k);
      assert i < j && h.messages[k] == raw[j];
    }
  }

  /** The piece of the latest user message, and where it is woven in. */
  lemma LatestUserIsWoven(
    raw: seq<ChatMessage>, digest: string -> string, h: Materialized, input: Inputs, pieces: seq<Piece>, i: nat)
    returns (k: nat, at: nat)
    requires IsWovenTranscript(raw, digest, h, input, pieces) && IsLatestUser(raw, i)
    ensures k < |pieces| && pieces[k] == MessagePiece(at, true)
    ensures at < |input.messages| && input.messages[at] == raw[i]
  {
    hide InPlace, Describes;
    LatestUserIsLast(raw, digest, h, i);
    at := h.messageIndexMap[i].value;
    var piece := MessagePiece(at, true);
    assert Expected(input, piece);
    k :| 0 <= k < |pieces| && pieces[k] == piece;
  }

  /** All other messages give way to it: none of them is pinned. */
  lemma OtherMessagesYield(
    raw: seq<ChatMessage>, digest: string -> string, h: Materialized, input: Inputs, pieces: seq<Piece>,
    rendering: Rendering, collected: seq<ContextItem>, start: nat, k: nat, p: nat)
    requires IsWovenTranscript(raw, digest, h, input, pieces) && IsCollected(rendering, input, pieces, collected, start)
    requires k < |pieces| && p < |pieces| && p != k && pieces[k].MessagePiece? && pieces[k].latestUser
    requires pieces[p].MessagePiece? && collected[start + k].pinned
    ensures Outranks(collected[start + k], collected[start + p])
    ensures !Outranks(collected[start + p], collected[start + k])
  {
    hide Describes, Place, MessageId, MessageMetadata;
    IndexMapIsExact(raw, digest, h);
    EachPieceOnce(input, pieces);
    assert pieces[p] in pieces && pieces[k] in pieces;
    assert Expected(input, pieces[p]) && Expected(input, pieces[k]);
    assert pieces[p] != pieces[k];
    assert !collected[start + p].pinned;
  }

  lemma BestIffOutsidersYield(
    raw: seq<ChatMessage>, digest: string -> string, h: Materialized, input: Inputs, pieces: seq<Piece>,
    rendering: Rendering, collected: seq<ContextItem>, start: nat, k: nat)
    requires IsWovenTranscript(raw, digest, h, input, pieces) && IsCollected(rendering, input, pieces, collected, start)
    requires k < |pieces| && pieces[k].MessagePiece? && pieces[k].latestUser && collected[start + k].pinned
    ensures BestAt(collected, |collected|, start + k) <==> OutsidersYield(pieces, collected, start, start + k)
  {
    hide IsWovenTranscript, Outranks, BestAt, MessageItem;
    var q := start + k;
    assert q < |collected|;
    hide IsCollected;
    BestAtMeans(collected, q);
    forall p | 0 <= p < |collected| && p != q && !IsOutsider(pieces, start, p)
      ensures Outranks(collected[q], collected[p]) && !Outranks(collected[p], collected[q])
    {
      OtherMessagesYield(raw, digest, h, input, pieces, rendering, collected, start, k, p - start);
    }
  }

  /**
   Unless the pack is overflowed, the last user message of a session is sent if no item other than those
   of messages takes its place, and only then if all those items differ from it. The ids of the messages
   play no part, whatever tool calls they name.
   */
  lemma LatestUserMessageIsSent(
    raw: seq<ChatMessage>, digest: string -> string, h: Materialized, input: Inputs, pieces: seq<Piece>, i: nat,
    rendering: Rendering, collected: seq<ContextItem>, start: nat,
    b: Builder, reading: Reading, prepared: seq<ContextItem>, pack: Pack)
    returns (unique: seq<ContextItem>, q: nat)
    requires IsWovenTranscript(raw, digest, h, input, pieces) && IsLatestUser(raw, i)
    requires IsCollected(rendering, input, pieces, collected, start)
    requires IsBuilt(b, collected, item => SemanticFingerprint(reading, item), prepared, pack)
    requires !pack.budget.overflowed
    ensures IsDeduped(collected, unique) && |unique| == |pack.items|
    ensures q < |collected| && collected[q].content == rendering.bytes(raw[i].content) && collected[q].Required()
    ensures OutsidersYield(pieces, collected, start, q) ==> IsSent(b, pack, unique, collected[q])
    ensures (forall p | 0 <= p < |collected| && IsOutsider(pieces, start, p) :: collected[p] != collected[q]) ==>
      (IsSent(b, pack, unique, collected[q]) <==> OutsidersYield(pieces, collected, start, q))
  {
    hide IsBuilt, IsWovenTranscript, IsSent, OutsidersYield, BestAt, IsDeduped, MessageId, MessageMetadata;
    var k, at := LatestUserIsWoven(raw, digest, h, input, pieces, i);
    q := start + k;
    LatestUserIsRequired(rendering, at, raw[i]);
    unique := RequiredItemIsSentIff(b, collected, item => SemanticFingerprint(reading, item), prepared, pack, q);
    BestIffOutsidersYield(raw, digest, h, input, pieces, rendering, collected, start, k);
    if forall p | 0 <= p < |collected| && IsOutsider(pieces, start, p) :: collected[p] != collected[q] {
      forall p | 0 <= p < |collected| && p != q ensures collected[p] != collected[q] {
        if !IsOutsider(pieces, start, p) {
          OtherMessagesYield(raw, digest, h, input, pieces, rendering, collected, start, k, p - start);
        }
      }
    }
  }

  // ----- attachments

  /** The sources are moved along with the transcript. */
  ghost predicate MovesSources(h: Materialized, sources: seq<Option<nat>>, input: Inputs) {
    && |input.attachmentSources| == |sources|
    && forall k | 0 <= k < |sources| :: input.attachmentSources[k] == RemapSource(h, sources[k])
  }

  /**
   An attachment whose message is kept stands right behind that same message in the woven transcript,
   with nothing but attachments of that message between them.
   */
  lemma AttachmentStaysWithItsMessage(
    raw: seq<ChatMessage>, digest: string -> string, h: Materialized, input: Inputs, pieces: seq<Piece>,
    sources: seq<Option<nat>>, k: nat, source: nat) returns (m: nat, a: nat)
    requires IsWovenTranscript(raw, digest, h, input, pieces) && MovesSources(h, sources, input)
    requires k < |sources| && sources[k] == Some(source) && source < |raw| && OutcomeOf(raw, source).Kept?
    ensures m < a < |pieces| && pieces[m].MessagePiece? && pieces[m].index < |input.messages|
    ensures input.messages[pieces[m].index] == raw[source]
    ensures pieces[a] == AttachmentPiece(pieces[m].index, k)
    ensures forall j | m < j <= a :: pieces[j].AttachmentPiece? && pieces[j].source == pieces[m].index
  {
    hide OutcomeOf, Describes;
    RemappedSourceIsTheSameMessage(raw, digest, h, source);
    var at := RemapSource(h, Some(source)).value;
    var message := MessagePiece(at, at == SessionPosition(input) && input.messages[at].role.User?);
    assert Expected(input, message);
    m :| 0 <= m < |pieces| && pieces[m] == message;
    assert Expected(input, AttachmentPiece(at, k));
    a :| 0 <= a < |pieces| && pieces[a] == AttachmentPiece(at, k);
    AttachmentsFollowTheirMessage(input, pieces, a, m);
    forall j | m < j <= a ensures pieces[j].AttachmentPiece? && pieces[j].source == at {
      assert pieces[j] in pieces;
      assert RankBefore(Place(input, pieces[m]), Place(input, pieces[j]));
      assert j == a || RankBefore(Place(input, pieces[j]), Place(input, pieces[a]));
    }
  }

  /**
   Any other attachment is filed under the last message and comes after everything; only such attachments
   come after it.
   */
  lemma OtherAttachmentsComeLast(
    raw: seq<ChatMessage>, digest: string -> string, h: Materialized, input: Inputs, pieces: seq<Piece>,
    sources: seq<Option<nat>>, k: nat) returns (a: nat)
    requires IsWovenTranscript(raw, digest, h, input, pieces) && MovesSources(h, sources, input) && k < |sources|
    requires sources[k].Some? && sources[k].value < |raw| ==> !OutcomeOf(raw, sources[k].value).Kept?
    ensures a < |pieces|
    ensures pieces[a] == AttachmentPiece(if input.messages == [] then 0 else |input.messages| - 1, k)
    ensures forall j | a < j < |pieces| ::
      pieces[j].AttachmentPiece? && k < pieces[j].k < |sources| && input.attachmentSources[pieces[j].k].None?
  {
    hide OutcomeOf, Describes;
    MovedSources(raw, digest, h, input, sources);
    var piece := AttachmentPiece(SourceFor(input, k), k);
    assert Expected(input, piece);
    a :| 0 <= a < |pieces| && pieces[a] == piece;
    forall j | a < j < |pieces|
      ensures pieces[j].AttachmentPiece? && k < pieces[j].k < |sources| && input.attachmentSources[pieces[j].k].None?
    {
      assert pieces[j] in pieces && Expected(input, pieces[j]);
      assert RankBefore(Place(input, pieces[a]), Place(input, pieces[j]));
    }
  }

  lemma MovedSources(raw: seq<ChatMessage>, digest: string -> string, h: Materialized, input: Inputs,
                     sources: seq<Option<nat>>)
    requires Describes(raw, |raw|, digest, h) && MovesSources(h, sources, input) && input.messages == h.messages
    ensures forall k | 0 <= k < |sources| ::
      && (input.attachmentSources[k].Some? ==> InRange(input, k))
      && (input.attachmentSources[k].Some? <==>
            sources[k].Some? && sources[k].value < |raw| && OutcomeOf(raw, sources[k].value).Kept?)
  {
    hide OutcomeOf, Describes;
    forall k | 0 <= k < |sources| && sources[k].Some?
      ensures input.attachmentSources[k].Some? ==> InRange(input, k)
      ensures input.attachmentSources[k].Some? <==>
        sources[k].value < |raw| && OutcomeOf(raw, sources[k].value).Kept?
    {
      RemappedSourceIsTheSameMessage(raw, digest, h, sources[k].value);
    }
  }
}
