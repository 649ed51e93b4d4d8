/**
 `iterate_by_sticker_packs`: all pages of a listing, one request after the other, no further than
 they are wanted.
 */
module StickerPackPages {
  import opened Results

  /** A page of the listing and the cursor behind it. */
  datatype Page<T> = Page(packs: seq<T>, after: Option<string>)

  /** `if not after`: no cursor and the empty cursor both end the listing. */
  predicate IsCursor(after: Option<string>)
  {
    after.Some? && after.value != ""
  }

  /** The `after` field of `BotXAPIGetStickerPacksRequestPayload.from_domain`. */
  function CursorField(after: Option<string>): Missing<string>
  {
    if IsCursor(after) then Given(after.value) else Undefined
  }

  /** The packs on the pages before `n`; `server(i)` is what the request number `i` is answered with. */
  function PacksBefore<T>(server: nat -> Page<T>, n: nat): seq<T>
  {
    if n == 0 then [] else PacksBefore(server, n - 1) + server(n - 1).packs
  }

  /** The cursor that leads to page `n`. */
  function CursorBefore<T>(server: nat -> Page<T>, n: nat): Option<string>
  {
    if n == 0 then None else server(n - 1).after
  }

  /** The `after` fields of the first `n` requests: none on the first, then the cursor of the page before. */
  function RequestsBefore<T>(server: nat -> Page<T>, n: nat): seq<Missing<string>>
  {
    if n == 0 then [] else RequestsBefore(server, n - 1) + [CursorField(CursorBefore(server, n - 1))]
  }

  /** The listing has `n` pages: cursors lead from each to the next, and the last has none. */
  ghost predicate HasPages<T>(server: nat -> Page<T>, n: nat)
  {
    && 0 < n
    && (forall i: nat | i < n - 1 :: server(i).after.Some? && server(i).after.value != "")
    && (server(n - 1).after == None || server(n - 1).after == Some(""))
  }

  lemma {:induction false} PacksGrow<T>(server: nat -> Page<T>, m: nat, n: nat)
    requires m <= n
    ensures PacksBefore(server, m) <= PacksBefore(server, n)
    decreases n
  {
    if m == n {
    } else {
      PacksGrow(server, m, n - 1);
      assert PacksBefore(server, n - 1) <= PacksBefore(server, n);
    }
  }

  /** What a consumer that stops at `wanted` packs, if at all, sees of them. */
  function Seen<T>(all: seq<T>, wanted: Option<nat>): seq<T>
  {
    if wanted.Some? && wanted.value < |all| then all[..wanted.value] else all
  }

  lemma {:induction false} NothingIsSeen<T>(all: seq<T>)
    ensures Seen(all, Some(0)) == []
  {
  }

  lemma {:induction false} AllIsSeen<T>(all: seq<T>, wanted: Option<nat>)
    requires wanted.Some? ==> |all| < wanted.value
    ensures all == Seen(all, wanted)
  {
  }

  lemma {:induction false} NextPage<T>(server: nat -> Page<T>, n: nat)
    ensures PacksBefore(server, n + 1) == PacksBefore(server, n) + server(n).packs
    ensures RequestsBefore(server, n + 1)
         == RequestsBefore(server, n) + [CursorField(CursorBefore(server, n))]
    ensures CursorBefore(server, n + 1) == server(n).after
  {
  }

  /** No cursor is sent at first, and then the one that came with the page before. */
  lemma {:induction false} SentCursors<T>(server: nat -> Page<T>, pages: nat, n: nat)
    requires HasPages(server, pages) && n <= pages
    ensures |RequestsBefore(server, n)| == n
    ensures n > 0 ==> RequestsBefore(server, n)[0] == Undefined
    ensures forall i | 0 < i < n ::
      server(i - 1).after.Some? && RequestsBefore(server, n)[i] == Given(server(i - 1).after.value)
  {
    if n == 0 {
    } else {
      SentCursors(server, pages, n - 1);
    }
  }

  lemma {:induction false} CursorMeansMore<T>(server: nat -> Page<T>, pages: nat, n: nat)
    requires HasPages(server, pages) && n < pages
    ensures IsCursor(server(n).after) <==> n + 1 < pages
  {
  }

  /** Stopping inside page `n` is stopping inside the whole listing. */
  lemma {:induction false} StopInsidePage<T>(server: nat -> Page<T>, n: nat, wanted: nat, pages: nat)
    requires n < pages && wanted <= |PacksBefore(server, n + 1)|
    ensures PacksBefore(server, n + 1)[..wanted] == Seen(PacksBefore(server, pages), Some(wanted))
  {
    PacksGrow(server, n + 1, pages);
  }

  /** The loop over one page: the packs are yielded until the consumer has as many as it wanted. */
  method YieldPage<T>(before: seq<T>, packs: seq<T>, wanted: Option<nat>) returns (yielded: seq<T>, stopped: bool)
    requires wanted.Some? ==> |before| < wanted.value
    ensures stopped <==> wanted.Some? && wanted.value <= |before + packs|
    ensures yielded == if stopped then (before + packs)[..wanted.value] else before + packs
  {
    yielded, stopped := before, false;
    var j := 0;
    while j < |packs|
      invariant 0 <= j <= |packs|
      invariant yielded == (before + packs)[..|before| + j]
      invariant wanted.Some? ==> |before| + j < wanted.value
    {
      yielded := yielded + [packs[j]];
      j := j + 1;
      if wanted.Some? && |yielded| == wanted.value {
        return yielded, true;
      }
    }
  }

  /**
   `iterate_by_sticker_packs`, run until the consumer has `wanted` packs, or to the end. What is
   yielded is a prefix of the whole listing, and no page is requested before a pack of it is wanted.
   */
  method IterateByStickerPacks<T>(server: nat -> Page<T>, wanted: Option<nat>, ghost pages: nat)
    returns (yielded: seq<T>, requests: seq<Missing<string>>)
    requires HasPages(server, pages)
    ensures yielded == Seen(PacksBefore(server, pages), wanted)
    ensures |requests| <= pages && requests == RequestsBefore(server, |requests|)
    ensures |requests| > 0 ==> requests[0] == Undefined
    ensures forall i | 0 < i < |requests| ::
      server(i - 1).after.Some? && requests[i] == Given(server(i - 1).after.value)
    ensures wanted.None? ==> |requests| == pages
    ensures wanted == Some(0) ==> requests == []
    ensures wanted.Some? && |requests| > 0 ==> |PacksBefore(server, |requests| - 1)| < wanted.value
  {
    yielded, requests := [], [];
    assert PacksBefore(server, 0) == [] && RequestsBefore(server, 0) == [] && CursorBefore(server, 0) == None;
    assert 0 < pages;
    hide HasPages, IsCursor, PacksBefore, RequestsBefore, CursorBefore, CursorField, Seen;
    if wanted == Some(0) {
      NothingIsSeen(PacksBefore(server, pages));
      return;
    }
    var after: Option<string> := None;
    ghost var n := 0;
    while true
      invariant n == |requests| && n < pages
      invariant yielded == PacksBefore(server, n)
      invariant requests == RequestsBefore(server, n)
      invariant after == CursorBefore(server, n)
      invariant wanted.Some? ==> |yielded| < wanted.value
      decreases pages - n
    {
      var page := server(|requests|);
      NextPage(server, n);
      CursorMeansMore(server, pages, n);
      requests := requests + [CursorField(after)];
      after := page.after;
      n := n + 1;
      var stopped;
      yielded, stopped := YieldPage(yielded, page.packs, wanted);
      SentCursors(server, pages, n);
      if stopped {
        StopInsidePage(server, n - 1, wanted.value, pages);
        return;
      }
      if !IsCursor(after) {
        AllIsSeen(yielded, wanted);
        return;
      }
    }
  }
}
