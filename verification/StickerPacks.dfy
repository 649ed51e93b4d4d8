/** Sticker packs: putting the stickers of a pack in order, and going through all packs page by page. */
module StickerPacks {
  import opened Results
  import opened Uuids

  datatype Sticker = Sticker(id: Uuid, emoji: string, link: string)

  /** The domain sticker also knows its pack. */
  datatype PackedSticker = PackedSticker(id: Uuid, emoji: string, imageLink: string, packId: Uuid)

  datatype StickerPack = StickerPack(id: Uuid, name: string, isPublic: bool, stickers: seq<PackedSticker>)

  /** `order.index(id)`. */
  function Index(order: seq<Uuid>, id: Uuid): (i: nat)
    requires id in order
    ensures i < |order| && order[i] == id && id !in order[..i]
  {
    if order[0] == id then
      0
    else
      var i := Index(order[1..], id);
      assert order[..i + 1] == [order[0]] + order[1..][..i];
      i + 1
  }

  predicate AllInOrder(order: seq<Uuid>, stickers: seq<Sticker>)
  {
    forall s | s in stickers :: s.id in order
  }

  /** `stickers.sort(key=...)`: a stable sort, here by insertion from the right. */
  function SortByPosition(order: seq<Uuid>, stickers: seq<Sticker>): (r: seq<Sticker>)
    requires AllInOrder(order, stickers)
    ensures multiset(r) == multiset(stickers) && AllInOrder(order, r)
  {
    if stickers == [] then
      []
    else
      assert stickers == [stickers[0]] + stickers[1..];
      var r := SortByPosition(order, stickers[1..]);
      SameElements(r, stickers[1..]);
      Insert(order, stickers[0], r)
  }

  function Insert(order: seq<Uuid>, s: Sticker, sorted: seq<Sticker>): (r: seq<Sticker>)
    requires s.id in order && AllInOrder(order, sorted)
    ensures multiset(r) == multiset{s} + multiset(sorted) && AllInOrder(order, r)
  {
    if sorted == [] || Index(order, s.id) <= Index(order, sorted[0].id) then
      [s] + sorted
    else
      assert sorted == [sorted[0]] + sorted[1..];
      [sorted[0]] + Insert(order, s, sorted[1..])
  }

  lemma {:induction false} SameElements<T>(a: seq<T>, b: seq<T>)
    requires multiset(a) == multiset(b)
    ensures forall x :: x in a <==> x in b
  {
    assert forall x :: x in a <==> x in multiset(a);
    assert forall x :: x in b <==> x in multiset(b);
  }

  // ----- What the sort is -----

  predicate SortedByPosition(order: seq<Uuid>, stickers: seq<Sticker>)
    requires AllInOrder(order, stickers)
  {
    forall i, j | 0 <= i < j < |stickers| :: Index(order, stickers[i].id) <= Index(order, stickers[j].id)
  }

  /** The stickers with one id, in the order in which they stand. */
  function WithId(stickers: seq<Sticker>, id: Uuid): seq<Sticker>
  {
    if stickers == [] then []
    else (if stickers[0].id == id then [stickers[0]] else []) + WithId(stickers[1..], id)
  }

  lemma {:induction false} InsertIsSorted(order: seq<Uuid>, s: Sticker, sorted: seq<Sticker>)
    requires s.id in order && AllInOrder(order, sorted) && SortedByPosition(order, sorted)
    ensures SortedByPosition(order, Insert(order, s, sorted))
  {
    hide Index;
    if sorted != [] && Index(order, s.id) > Index(order, sorted[0].id) {
      var r := Insert(order, s, sorted[1..]);
      InsertIsSorted(order, s, sorted[1..]);
      forall i | 0 <= i < |r| ensures Index(order, sorted[0].id) <= Index(order, r[i].id) {
        assert r[i] in multiset(r);
        assert r[i] == s || r[i] in sorted[1..];
      }
    }
  }

  lemma {:induction false} WithIdCons(s: Sticker, stickers: seq<Sticker>, id: Uuid)
    ensures WithId([s] + stickers, id) == (if s.id == id then [s] else []) + WithId(stickers, id)
  {
    assert ([s] + stickers)[1..] == stickers;
  }

  lemma {:induction false} InsertIsStable(order: seq<Uuid>, s: Sticker, sorted: seq<Sticker>, id: Uuid)
    requires s.id in order && AllInOrder(order, sorted)
    ensures WithId(Insert(order, s, sorted), id) == WithId([s] + sorted, id)
  {
    hide Index, WithId;
    if sorted != [] && Index(order, s.id) > Index(order, sorted[0].id) {
      var head, tail := sorted[0], sorted[1..];
      assert sorted == [head] + tail && head.id != s.id;
      InsertIsStable(order, s, tail, id);
      WithIdCons(head, Insert(order, s, tail), id);
      WithIdCons(s, tail, id);
      WithIdCons(head, tail, id);
      WithIdCons(s, sorted, id);
    }
  }

  /** The result is sorted by first position, and stickers with the same id keep their order. */
  lemma {:induction false} SortIsStable(order: seq<Uuid>, stickers: seq<Sticker>)
    requires AllInOrder(order, stickers)
    ensures SortedByPosition(order, SortByPosition(order, stickers))
    ensures forall id :: WithId(SortByPosition(order, stickers), id) == WithId(stickers, id)
  {
    if stickers == [] {
    } else {
      var r := SortByPosition(order, stickers[1..]);
      SortIsStable(order, stickers[1..]);
      SameElements(r, stickers[1..]);
      InsertIsSorted(order, stickers[0], r);
      forall id ensures WithId(SortByPosition(order, stickers), id) == WithId(stickers, id) {
        InsertIsStable(order, stickers[0], r, id);
        WithIdCons(stickers[0], r, id);
      }
    }
  }

  lemma {:induction false} WithIdMember(stickers: seq<Sticker>, s: Sticker)
    ensures s in stickers <==> s in WithId(stickers, s.id)
  {
    if stickers == [] {
    } else {
      WithIdMember(stickers[1..], s);
    }
  }

  /** Sortedness and stability leave no choice. */
  lemma {:induction false} StableSortIsUnique(order: seq<Uuid>, a: seq<Sticker>, b: seq<Sticker>)
    requires AllInOrder(order, a) && AllInOrder(order, b)
    requires SortedByPosition(order, a) && SortedByPosition(order, b)
    requires forall id :: WithId(a, id) == WithId(b, id)
    ensures a == b
  {
    if a == [] {
      if b != [] {
        WithIdMember(b, b[0]);
        WithIdMember(a, b[0]);
      }
    } else {
      WithIdMember(a, a[0]);
      WithIdMember(b, a[0]);
      WithIdMember(b, b[0]);
      WithIdMember(a, b[0]);
      assert Index(order, a[0].id) == Index(order, b[0].id);
      assert WithId(a, a[0].id)[0] == a[0] && WithId(b, b[0].id)[0] == b[0];
      forall id ensures WithId(a[1..], id) == WithId(b[1..], id) {
        assert WithId(a[1..], id) == if a[0].id == id then WithId(a, id)[1..] else WithId(a, id);
        assert WithId(b[1..], id) == if b[0].id == id then WithId(b, id)[1..] else WithId(b, id);
      }
      StableSortIsUnique(order, a[1..], b[1..]);
      assert a == [a[0]] + a[1..] && b == [b[0]] + b[1..];
    }
  }

  /** Sorting what is sorted changes nothing. */
  lemma {:induction false} SortTwice(order: seq<Uuid>, stickers: seq<Sticker>)
    requires AllInOrder(order, stickers)
    ensures SortByPosition(order, SortByPosition(order, stickers)) == SortByPosition(order, stickers)
  {
    var once := SortByPosition(order, stickers);
    SortIsStable(order, stickers);
    SortIsStable(order, once);
    StableSortIsUnique(order, SortByPosition(order, once), once);
  }

  // ----- The ids of the sorted stickers -----

  function Ids(stickers: seq<Sticker>): seq<Uuid>
  {
    seq(|stickers|, i requires 0 <= i < |stickers| => stickers[i].id)
  }

  predicate Distinct(ids: seq<Uuid>)
  {
    forall i, j | 0 <= i < j < |ids| :: ids[i] != ids[j]
  }

  /** Walking along the order and taking each wanted id where it first stands. */
  function Walk(order: seq<Uuid>, wanted: set<Uuid>): seq<Uuid>
  {
    if order == [] then []
    else if order[0] in wanted then [order[0]] + Walk(order[1..], wanted - {order[0]})
    else Walk(order[1..], wanted)
  }

  lemma {:induction false} WalkMembers(order: seq<Uuid>, wanted: set<Uuid>)
    ensures forall id :: id in Walk(order, wanted) <==> id in order && id in wanted
  {
    if order == [] {
    } else {
      WalkMembers(order[1..], if order[0] in wanted then wanted - {order[0]} else wanted);
      assert forall id :: id in order <==> id == order[0] || id in order[1..];
    }
  }

  ghost predicate StrictlyByPosition(order: seq<Uuid>, ids: seq<Uuid>)
  {
    && (forall id | id in ids :: id in order)
    && forall i, j | 0 <= i < j < |ids| :: Index(order, ids[i]) < Index(order, ids[j])
  }

  lemma {:induction false} IndexBehind(order: seq<Uuid>, id: Uuid)
    requires order != [] && id in order[1..] && id != order[0]
    ensures Index(order, id) == Index(order[1..], id) + 1
  {
  }

  lemma {:induction false} WalkIsStrict(order: seq<Uuid>, wanted: set<Uuid>)
    ensures StrictlyByPosition(order, Walk(order, wanted))
  {
    WalkMembers(order, wanted);
    if order == [] {
    } else {
      var wanted' := if order[0] in wanted then wanted - {order[0]} else wanted;
      var rest := Walk(order[1..], wanted');
      WalkIsStrict(order[1..], wanted');
      WalkMembers(order[1..], wanted');
      forall id | id in rest ensures Index(order, id) == Index(order[1..], id) + 1 {
        IndexBehind(order, id);
      }
      if order[0] in wanted {
        assert Index(order, order[0]) == 0;
      }
    }
  }

  lemma {:induction false} StrictIsUnique(order: seq<Uuid>, a: seq<Uuid>, b: seq<Uuid>)
    requires StrictlyByPosition(order, a) && StrictlyByPosition(order, b)
    requires forall id :: id in a <==> id in b
    ensures a == b
  {
    if b != [] {
      assert b[0] in b;
    }
    if a == [] {
    } else {
      assert a[0] in b;
      assert b[0] in a;
      assert a[0] == b[0];
      forall id ensures id in a[1..] <==> id in b[1..] {
        assert id in a[1..] ==> Index(order, a[0]) < Index(order, id);
        assert id in b[1..] ==> Index(order, b[0]) < Index(order, id);
        assert id in a <==> id == a[0] || id in a[1..];
        assert id in b <==> id == b[0] || id in b[1..];
      }
      StrictIsUnique(order, a[1..], b[1..]);
      assert a == [a[0]] + a[1..] && b == [b[0]] + b[1..];
    }
  }

  lemma {:induction false} SortKeepsDistinct(order: seq<Uuid>, stickers: seq<Sticker>)
    requires AllInOrder(order, stickers) && Distinct(Ids(stickers))
    ensures Distinct(Ids(SortByPosition(order, stickers)))
  {
    var r := SortByPosition(order, stickers);
    SortIsStable(order, stickers);
    forall i, j | 0 <= i < j < |r| ensures r[i].id != r[j].id {
      if r[i].id == r[j].id {
        TwoWithId(r, i, j);
        AtMostOneWithId(stickers, r[i].id);
      }
    }
  }

  lemma {:induction false} TwoWithId(stickers: seq<Sticker>, i: nat, j: nat)
    requires i < j < |stickers| && stickers[i].id == stickers[j].id
    ensures |WithId(stickers, stickers[i].id)| >= 2
  {
    if i > 0 {
      TwoWithId(stickers[1..], i - 1, j - 1);
    } else {
      assert stickers[j] in stickers[1..] by { assert stickers[1..][j - 1] == stickers[j]; }
      WithIdMember(stickers[1..], stickers[j]);
    }
  }

  lemma {:induction false} AtMostOneWithId(stickers: seq<Sticker>, id: Uuid)
    requires Distinct(Ids(stickers))
    ensures |WithId(stickers, id)| <= 1
  {
    if stickers == [] {
    } else {
      forall i, j | 0 <= i < j < |stickers| - 1 ensures Ids(stickers[1..])[i] != Ids(stickers[1..])[j] {
        assert Ids(stickers)[i + 1] != Ids(stickers)[j + 1];
      }
      AtMostOneWithId(stickers[1..], id);
      forall s | s in stickers[1..] ensures s.id != stickers[0].id {
        var k :| 0 <= k < |stickers[1..]| && stickers[1..][k] == s;
        assert Ids(stickers)[0] != Ids(stickers)[k + 1];
      }
      WithIdSame(stickers[1..], id);
      if WithId(stickers[1..], id) != [] {
        WithIdMember(stickers[1..], WithId(stickers[1..], id)[0]);
      }
    }
  }

  lemma {:induction false} WithIdSame(stickers: seq<Sticker>, id: Uuid)
    ensures forall s | s in WithId(stickers, id) :: s.id == id
  {
    if stickers == [] {
    } else {
      WithIdSame(stickers[1..], id);
    }
  }

  /**
   With distinct ids, the ids of the result are the order itself, without repetitions and without ids
   that no sticker has.
   */
  lemma {:induction false} SortedIdsFollowOrder(order: seq<Uuid>, stickers: seq<Sticker>)
    requires AllInOrder(order, stickers) && Distinct(Ids(stickers))
    ensures Ids(SortByPosition(order, stickers)) == Walk(order, set s | s in stickers :: s.id)
  {
    hide Index, SortByPosition, Walk;
    var r, wanted := SortByPosition(order, stickers), set s | s in stickers :: s.id;
    SortIsStable(order, stickers);
    SortKeepsDistinct(order, stickers);
    SameElements(r, stickers);
    WalkIsStrict(order, wanted);
    WalkMembers(order, wanted);
    forall i, j | 0 <= i < j < |r| ensures Index(order, Ids(r)[i]) < Index(order, Ids(r)[j]) {
      assert Ids(r)[i] != Ids(r)[j];
    }
    forall id ensures id in Ids(r) <==> id in Walk(order, wanted) {
      if id in Ids(r) {
        var i :| 0 <= i < |r| && Ids(r)[i] == id;
        assert r[i] in stickers;
      }
      if id in wanted {
        var s :| s in stickers && s.id == id;
        var i :| 0 <= i < |r| && r[i] == s;
        assert Ids(r)[i] == id;
      }
    }
    StrictIsUnique(order, Ids(r), Walk(order, wanted));
  }

  /** If the order names every sticker once, the ids of the result are the order. */
  lemma {:induction false} WalkOfPermutation(order: seq<Uuid>, wanted: set<Uuid>)
    requires Distinct(order) && forall id :: id in order <==> id in wanted
    ensures Walk(order, wanted) == order
  {
    if order == [] {
    } else {
      assert order == [order[0]] + order[1..];
      assert order[0] !in order[1..];
      WalkOfPermutation(order[1..], wanted - {order[0]});
    }
  }

  // ----- The response object -----

  datatype SortError = IdNotInOrder

  /** `BotXAPIGetStickerPackResponsePayload`. */
  class GetStickerPackResponse {
    const id: Uuid
    const name: string
    const isPublic: bool
    const stickersOrder: Option<seq<Uuid>>
    var stickers: seq<Sticker>

    constructor (id: Uuid, name: string, isPublic: bool, stickersOrder: Option<seq<Uuid>>, stickers: seq<Sticker>)
      ensures this.id == id && this.name == name && this.isPublic == isPublic
      ensures this.stickersOrder == stickersOrder && this.stickers == stickers
    {
      this.id, this.name, this.isPublic := id, name, isPublic;
      this.stickersOrder, this.stickers := stickersOrder, stickers;
    }

    /**
     `to_domain`: the list in the response is sorted in place, unless there is no order or an id is
     missing in it.
     */
    method ToDomain() returns (r: Result<StickerPack, SortError>)
      modifies this`stickers
      ensures stickersOrder.None? || stickersOrder.value == [] ==> stickers == old(stickers) && r.Success?
      ensures stickersOrder.Some? && stickersOrder.value != [] ==>
        if exists s :: s in old(stickers) && s.id !in stickersOrder.value then
          stickers == old(stickers) && r == Failure(IdNotInOrder)
        else
          && AllInOrder(stickersOrder.value, old(stickers))
          && stickers == SortByPosition(stickersOrder.value, old(stickers)) && r.Success?
      ensures r.Success? ==>
        && r.value.id == id && r.value.name == name && r.value.isPublic == isPublic
        && |r.value.stickers| == |stickers|
        && forall i | 0 <= i < |stickers| ::
             r.value.stickers[i] == PackedSticker(stickers[i].id, stickers[i].emoji, stickers[i].link, id)
    {
      if stickersOrder.Some? && stickersOrder.value != [] {
        if !AllInOrder(stickersOrder.value, stickers) {
          return Failure(IdNotInOrder);
        }
        stickers := SortByPosition(stickersOrder.value, stickers);
      }
      var packed := seq(|stickers|, i requires 0 <= i < |stickers| reads this =>
        PackedSticker(stickers[i].id, stickers[i].emoji, stickers[i].link, id));
      r := Success(StickerPack(id, name, isPublic, packed));
    }
  }

  /** Asking the same response twice gives the same pack twice. */
  method ToDomainTwice(response: GetStickerPackResponse)
    returns (first: Result<StickerPack, SortError>, second: Result<StickerPack, SortError>)
    modifies response`stickers
    ensures first == second
  {
    first := response.ToDomain();
    if response.stickersOrder.Some? && response.stickersOrder.value != [] && first.Success? {
      SortTwice(response.stickersOrder.value, old(response.stickers));
    }
    second := response.ToDomain();
    if first.Success? {
      assert first.value.stickers == second.value.stickers;
    }
  }
}
