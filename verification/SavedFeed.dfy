/** The walk over a saved-posts feed: `pageMedia` and the decoding of its items.

    The remote is an adversary. It answers the k-th request of a run however it likes, so both
    the items and the pagination cursors are arbitrary. Three local guards bound the walk: a page
    cap, the set of cursors already followed, and the set of posts already collected. */
module SavedFeed {
  import opened Wrappers
  import opened Orders

  const DEFAULT_MAX_ITEMS := 50
  const DEFAULT_MAX_PAGES := 100

  datatype SavedPost = SavedPost(source: string, caption: string, imageURL: string)

  /** A media object; both of its nested objects may be absent. */
  datatype Media = Media(code: string, caption: Option<string>, images: Option<seq<string>>)

  /** One raw feed item: JSON that does not decode, or the media wrapped under its own key
      (possibly absent) together with the media fields found on the item itself. */
  datatype RawItem = Malformed | Item(wrapped: Option<Media>, direct: Media)

  datatype DropReason = NoMediaCode | UndecodableItem

  datatype RequestError = RateLimited | ReauthRequired | Transport

  datatype Response =
    | Failed(error: RequestError)
    | NotAPage
    | Page(items: seq<RawItem>, nextMaxID: string)

  datatype FetchError =
    | NoError
    | Cancelled
    | RequestFailed(error: RequestError)
    | MalformedPage
    | NothingReadable

  datatype FetchOptions = FetchOptions(maxItems: int, maxPages: int, known: Option<string -> bool>)
  {
    function WithDefaults(): (o: FetchOptions)
      ensures o.maxItems > 0 && o.maxPages > 0 && o.known == known
      ensures maxItems > 0 ==> o.maxItems == maxItems
      ensures maxPages > 0 ==> o.maxPages == maxPages
    {
      var o1 := if maxItems <= 0 then this.(maxItems := DEFAULT_MAX_ITEMS) else this;
      if maxPages <= 0 then o1.(maxPages := DEFAULT_MAX_PAGES) else o1
    }

    predicate IsKnown(source: string)
    {
      Known(known, source)
    }

    /** How many items and pages one run may take, defaults filled in. */
    function Items(): (n: nat)
      ensures n > 0 && n == if maxItems > 0 then maxItems else 50
    {
      WithDefaults().maxItems
    }

    function Pages(): (n: nat)
      ensures n > 0 && n == if maxPages > 0 then maxPages else 100
    {
      WithDefaults().maxPages
    }
  }

  /** An unset hook means nothing is known. */
  predicate Known(known: Option<string -> bool>, source: string)
  {
    known.Some? && known.value(source)
  }

  /** What one run meets: the answer to its k-th request, given the cursor sent, and whether the
      context is already done when page k is about to be requested. */
  datatype Remote = Remote(answer: (nat, string) -> Response, cancelled: nat -> bool)

  // ---------------------------------------------------------------- decoding

  function Permalink(code: string): string
  {
    "https://www.instagram.com/p/" + code + "/"
  }

  function DecodeSavedPost(raw: RawItem): Result<SavedPost, DropReason>
  {
    match raw
    case Malformed => Err(UndecodableItem)
    case Item(wrapped, direct) =>
      var media := MediaOf(raw);
      if media.code == "" then Err(NoMediaCode)
      else
        Ok(SavedPost(
             Permalink(media.code),
             if media.caption.Some? then media.caption.value else "",
             if media.images.Some? && media.images.value != [] then media.images.value[0] else ""))
  }

  /** The media object an item is read from: the wrapped one where there is one. */
  function MediaOf(raw: RawItem): Media
    requires raw.Item?
  {
    if raw.wrapped.Some? then raw.wrapped.value else raw.direct
  }

  /** The permalink is the dedupe key, so it must identify the post: whatever shapes they came in, two
      readable items have the same source exactly when they carry the same shortcode. */
  lemma SourceIdentifiesPost(a: RawItem, b: RawItem)
    requires DecodeSavedPost(a).Ok? && DecodeSavedPost(b).Ok?
    ensures a.Item? && b.Item?
    ensures DecodeSavedPost(a).value.source == DecodeSavedPost(b).value.source <==> MediaOf(a).code == MediaOf(b).code
  {
    PermalinkTells(MediaOf(a).code, MediaOf(b).code);
  }

  lemma PermalinkTells(a: string, b: string)
    ensures Permalink(a) == Permalink(b) <==> a == b
  {
    var head := "https://www.instagram.com/p/";
    assert Permalink(a)[|head|..|Permalink(a)| - 1] == a;
    assert Permalink(b)[|head|..|Permalink(b)| - 1] == b;
  }

  /** raw decodes, and m is the media object it is about: the wrapped one if there is one, else its own. */
  predicate Carries(raw: RawItem, m: Media)
  {
    raw.Item? && (raw.wrapped == Some(m) || (raw.wrapped == None && raw.direct == m))
  }

  /** p says what m says: the permalink of its code, its caption text and its first image, where it has any. */
  predicate Shows(p: SavedPost, m: Media)
  {
    && p.source == "https://www.instagram.com/p/" + m.code + "/"
    && (m.caption.Some? ==> p.caption == m.caption.value)
    && (m.caption.None? ==> p.caption == "")
    && (m.images.Some? && m.images.value != [] ==> p.imageURL == m.images.value[0])
    && (m.images.None? || m.images.value == [] ==> p.imageURL == "")
  }

  /** raw has a media object with a code. */
  predicate ReadableItem(raw: RawItem)
  {
    raw.Item? && (if raw.wrapped.Some? then raw.wrapped.value.code != "" else raw.direct.code != "")
  }

  /** What decoding an item comes to, by the fields it has. */
  lemma DecodedMeaning(raw: RawItem)
    ensures DecodeSavedPost(raw) == Err(UndecodableItem) <==> raw == Malformed
    ensures forall m | Carries(raw, m) ::
              && (DecodeSavedPost(raw) == Err(NoMediaCode) <==> m.code == "")
              && (m.code != "" ==> DecodeSavedPost(raw).Ok? && Shows(DecodeSavedPost(raw).value, m))
    ensures DecodeSavedPost(raw).Ok? <==> ReadableItem(raw)
  {}

  /** The readable posts among items, in feed order. */
  function PostsOn(items: seq<RawItem>): seq<SavedPost>
  {
    if items == [] then []
    else
      var init := PostsOn(items[..|items| - 1]);
      var last := DecodeSavedPost(items[|items| - 1]);
      if last.Ok? then init + [last.value] else init
  }

  /** How many of items cannot be read. */
  function UnreadableOn(items: seq<RawItem>): nat
  {
    if items == [] then 0
    else UnreadableOn(items[..|items| - 1]) + (if DecodeSavedPost(items[|items| - 1]).Err? then 1 else 0)
  }

  /** posts are what the readable items among these show, one each and in feed order; at is where they
      stand. */
  ghost predicate ShownInOrder(items: seq<RawItem>, posts: seq<SavedPost>, at: seq<int>)
  {
    && |at| == |posts| && Ascending(at)
    && (forall i :: i in at <==> 0 <= i < |items| && ReadableItem(items[i]))
    && forall k | 0 <= k < |at| ::
         0 <= at[k] < |items| && exists m :: Carries(items[at[k]], m) && Shows(posts[k], m)
  }

  /** No readable item is lost, none is invented, and the others are counted. */
  lemma {:induction false} PostsOnMeaning(items: seq<RawItem>) returns (at: seq<int>)
    ensures ShownInOrder(items, PostsOn(items), at)
    ensures |PostsOn(items)| + UnreadableOn(items) == |items|
  {
    at := [];
    if items != [] {
      var last := |items| - 1;
      at := PostsOnMeaning(items[..last]);
      DecodedMeaning(items[last]);
      if ReadableItem(items[last]) {
        var m := MediaOf(items[last]);
        assert Carries(items[last], m) && Shows(DecodeSavedPost(items[last]).value, m);
        at := at + [last];
      }
    }
  }

  // ---------------------------------------------------------------- the cursor chain

  /** The cursor the k-th request of an unbounded walk would send. */
  function CursorAt(r: Remote, k: nat): string
  {
    if k == 0 then "" else
      match r.answer(k - 1, CursorAt(r, k - 1))
      case Page(_, next) => next
      case _ => ""
  }

  function AnswerAt(r: Remote, k: nat): Response
  {
    r.answer(k, CursorAt(r, k))
  }

  predicate Readable(r: Remote, k: nat)
  {
    !r.cancelled(k) && AnswerAt(r, k).Page?
  }

  /** The cursors sent after the head of the feed, up to page k. */
  function Followed(r: Remote, k: nat): set<string>
  {
    if k == 0 then {} else Followed(r, k - 1) + {CursorAt(r, k)}
  }

  /** Page k leads on to page k + 1: it has items and names a cursor not yet followed. */
  predicate Continues(r: Remote, k: nat)
  {
    && Readable(r, k)
    && AnswerAt(r, k).items != []
    && AnswerAt(r, k).nextMaxID != ""
    && AnswerAt(r, k).nextMaxID !in Followed(r, k)
  }

  /** Page k lies on the chain: every page before it leads on. */
  predicate OnChain(r: Remote, k: nat)
  {
    k == 0 || (OnChain(r, k - 1) && Continues(r, k - 1))
  }

  /** The number of pages of the chain that can be read, looking at page k and later. */
  function ReadablePages(r: Remote, maxPages: nat, k: nat): (n: nat)
    requires k <= maxPages
    ensures k <= n <= maxPages
    decreases maxPages - k
  {
    if k == maxPages || !Readable(r, k) then k
    else if Continues(r, k) then ReadablePages(r, maxPages, k + 1)
    else k + 1
  }

  /** The items of the first n pages of the chain. */
  function ItemsOf(r: Remote, n: nat): seq<RawItem>
  {
    if n == 0 then []
    else ItemsOf(r, n - 1) + (match AnswerAt(r, n - 1) case Page(items, _) => items case _ => [])
  }

  // ---------------------------------------------------------------- the specification of a walk

  /** The posts of ps that are not known and not preceded by a post with the same source. */
  function NewPosts(ps: seq<SavedPost>, known: Option<string -> bool>): seq<SavedPost>
  {
    if ps == [] then []
    else
      var init := NewPosts(ps[..|ps| - 1], known);
      var p := ps[|ps| - 1];
      if Known(known, p.source) || p.source in Sources(ps[..|ps| - 1]) then init else init + [p]
  }

  function Sources(ps: seq<SavedPost>): set<string>
  {
    set p <- ps :: p.source
  }

  /** Everything new on the first n pages of the chain. */
  function NewOn(r: Remote, o: FetchOptions, n: nat): seq<SavedPost>
  {
    NewPosts(PostsOn(ItemsOf(r, n)), o.known)
  }

  /** Everything new on the readable part of the chain. */
  function Offered(r: Remote, o: FetchOptions): seq<SavedPost>
  {
    NewOn(r, o, ReadablePages(r, o.Pages(), 0))
  }

  /** What one walk collects: the first MaxItems new posts along the chain. */
  function Collected(r: Remote, o: FetchOptions): seq<SavedPost>
  {
    Take(Offered(r, o), o.Items())
  }

  /** The chain was cut off before page n, by a cancellation, a failed request or a page that does
      not decode. */
  predicate CutOffAt(r: Remote, o: FetchOptions, n: nat)
  {
    n < o.Pages() && OnChain(r, n) && !Readable(r, n)
  }

  /** The error a walk reports. A walk that already has its MaxItems never reaches a failing page. */
  function Reported(r: Remote, o: FetchOptions): FetchError
  {
    var n := ReadablePages(r, o.Pages(), 0);
    if |Offered(r, o)| >= o.Items() then NoError
    else if CutOffAt(r, o, n) then
      if r.cancelled(n) then Cancelled
      else if AnswerAt(r, n).Failed? then RequestFailed(AnswerAt(r, n).error)
      else MalformedPage
    else if Offered(r, o) == [] && UnreadableOn(ItemsOf(r, n)) > 0 then NothingReadable
    else NoError
  }

  // ---------------------------------------------------------------- small facts

  lemma {:induction false} PostsOnAppend(a: seq<RawItem>, b: seq<RawItem>)
    ensures PostsOn(a + b) == PostsOn(a) + PostsOn(b)
    ensures UnreadableOn(a + b) == UnreadableOn(a) + UnreadableOn(b)
  {
    if b == [] {
      assert a + b == a;
    } else {
      PostsOnAppend(a, b[..|b| - 1]);
      assert (a + b)[..|a + b| - 1] == a + b[..|b| - 1];
    }
  }

  /** Looking further along the feed never changes what was new so far. */
  lemma {:induction false} NewPostsGrow(a: seq<SavedPost>, b: seq<SavedPost>, known: Option<string -> bool>)
    ensures NewPosts(a, known) <= NewPosts(a + b, known)
  {
    if b == [] {
      assert a + b == a;
    } else {
      NewPostsGrow(a, b[..|b| - 1], known);
      assert (a + b)[..|a + b| - 1] == a + b[..|b| - 1];
    }
  }

  lemma SourcesAppend(a: seq<SavedPost>, p: SavedPost)
    ensures Sources(a + [p]) == Sources(a) + {p.source}
  {
    assert p in a + [p];
    forall x | x in a
      ensures x in a + [p]
    {}
  }

  lemma NoSources(ps: seq<SavedPost>)
    ensures ps == [] <==> Sources(ps) == {}
  {
    if ps != [] {
      assert ps[0].source in Sources(ps);
    }
  }

  /** What NewPosts keeps, said without its recursion: exactly the unknown sources. */
  lemma {:induction false} NewPostsMeaning(ps: seq<SavedPost>, known: Option<string -> bool>)
    ensures Sources(NewPosts(ps, known)) == set s <- Sources(ps) | !Known(known, s)
  {
    if ps != [] {
      var init, last := ps[..|ps| - 1], ps[|ps| - 1];
      NewPostsMeaning(init, known);
      assert ps == init + [last];
      SourcesAppend(init, last);
      SourcesAppend(NewPosts(init, known), last);
    }
  }

  lemma {:induction false} NewPostsDistinct(ps: seq<SavedPost>, known: Option<string -> bool>)
    ensures forall i, j | 0 <= i < j < |NewPosts(ps, known)| ::
              NewPosts(ps, known)[i].source != NewPosts(ps, known)[j].source
  {
    if ps != [] {
      var init, last := ps[..|ps| - 1], ps[|ps| - 1];
      var kept := NewPosts(init, known);
      NewPostsDistinct(init, known);
      NewPostsMeaning(init, known);
      forall i | 0 <= i < |kept|
        ensures kept[i].source in Sources(init)
      {
        assert kept[i].source in Sources(kept);
      }
    }
  }

  /** The post kept for a source is the first one that has it. */
  lemma {:induction false} NewPostsAreFirst(ps: seq<SavedPost>, known: Option<string -> bool>, p: SavedPost)
    returns (i: nat)
    requires p in NewPosts(ps, known)
    ensures i < |ps| && ps[i] == p && p.source !in Sources(ps[..i])
  {
    var init := ps[..|ps| - 1];
    if p in NewPosts(init, known) {
      i := NewPostsAreFirst(init, known, p);
      assert ps[..i] == init[..i];
    } else {
      i := |ps| - 1;
    }
  }

  /** While every page leads on, the readable part of the chain is found from the current page. */
  lemma {:induction false} ReadablePagesFrom(r: Remote, maxPages: nat, k: nat)
    requires k <= maxPages && OnChain(r, k)
    ensures ReadablePages(r, maxPages, 0) == ReadablePages(r, maxPages, k)
  {
    if k > 0 {
      ReadablePagesFrom(r, maxPages, k - 1);
    }
  }

  lemma {:induction false} ItemsGrow(r: Remote, m: nat, n: nat)
    requires m <= n
    ensures ItemsOf(r, m) <= ItemsOf(r, n)
    decreases n
  {
    if m < n {
      ItemsGrow(r, m, n - 1);
    }
  }

  /** The cursors of the first n requests. */
  function Sent(r: Remote, n: nat): (cs: seq<string>)
    ensures |cs| == n
  {
    if n == 0 then [] else Sent(r, n - 1) + [CursorAt(r, n - 1)]
  }

  predicate NoRepeats(cs: seq<string>)
  {
    cs == [] || (NoRepeats(cs[..|cs| - 1]) && cs[|cs| - 1] !in cs[..|cs| - 1])
  }

  lemma {:induction false} NoRepeatsMeaning(cs: seq<string>)
    ensures NoRepeats(cs) <==> forall i, j | 0 <= i < j < |cs| :: cs[i] != cs[j]
  {
    if cs != [] {
      NoRepeatsMeaning(cs[..|cs| - 1]);
    }
  }

  lemma {:induction false} SentElements(r: Remote, n: nat)
    ensures forall c <- Sent(r, n + 1) :: c == "" || c in Followed(r, n)
  {
    if n > 0 {
      SentElements(r, n - 1);
    }
  }

  /** No request along the chain repeats the cursor of an earlier one. */
  lemma {:induction false} RequestsDistinct(r: Remote, n: nat)
    requires OnChain(r, n)
    ensures NoRepeats(Sent(r, n + 1))
  {
    var cs := Sent(r, n + 1);
    assert cs[..n] == Sent(r, n);
    if n == 0 {
      assert cs[..0] == [];
    } else {
      RequestsDistinct(r, n - 1);
      SentElements(r, n - 1);
    }
  }

  lemma NewOnPagesGrow(r: Remote, o: FetchOptions, m: nat, n: nat)
    requires m <= n
    ensures NewOn(r, o, m) <= NewOn(r, o, n)
  {
    ItemsGrow(r, m, n);
    var rest := ItemsOf(r, n)[|ItemsOf(r, m)|..];
    assert ItemsOf(r, n) == ItemsOf(r, m) + rest;
    PostsOnAppend(ItemsOf(r, m), rest);
    NewPostsGrow(PostsOn(ItemsOf(r, m)), PostsOn(rest), o.known);
  }

  /** A walk that holds its MaxItems after some pages of the chain has collected what it should. */
  lemma FullWalk(r: Remote, o: FetchOptions, page: nat)
    requires page <= ReadablePages(r, o.Pages(), 0)
    requires |NewOn(r, o, page)| >= o.Items()
    ensures Take(NewOn(r, o, page), o.Items()) == Collected(r, o)
    ensures Reported(r, o) == NoError
  {
    NewOnPagesGrow(r, o, page, ReadablePages(r, o.Pages(), 0));
  }

  /** A walk still short of MaxItems when it can read no further has collected everything offered. */
  lemma ShortWalk(r: Remote, o: FetchOptions, page: nat)
    requires page == ReadablePages(r, o.Pages(), 0)
    requires |NewOn(r, o, page)| < o.Items()
    ensures NewOn(r, o, page) == Collected(r, o)
    ensures CutOffAt(r, o, page) ==>
              Reported(r, o) == (if r.cancelled(page) then Cancelled
                                 else if AnswerAt(r, page).Failed? then RequestFailed(AnswerAt(r, page).error)
                                 else MalformedPage)
    ensures !CutOffAt(r, o, page) ==>
              Reported(r, o) == (if NewOn(r, o, page) == [] && UnreadableOn(ItemsOf(r, page)) > 0
                                 then NothingReadable else NoError)
  {}

  // ---------------------------------------------------------------- the walk itself

  /** The walk over one page: readable posts that are neither collected nor known are taken, until
      MaxItems are held. `seen` is everything readable on the pages before this one. */
  method TakeItems(items: seq<RawItem>, opts: FetchOptions, out0: seq<SavedPost>, dropped0: nat,
                   collected0: set<string>, ghost seen: seq<SavedPost>)
    returns (out: seq<SavedPost>, dropped: nat, collected: set<string>)
    requires 0 < opts.maxItems && |out0| < opts.maxItems
    requires out0 == NewPosts(seen, opts.known)
    requires collected0 == Sources(out0)
    ensures out == Take(NewPosts(seen + PostsOn(items), opts.known), opts.maxItems)
    ensures collected == Sources(out)
    ensures |out| < opts.maxItems ==> dropped == dropped0 + UnreadableOn(items)
  {
    hide NewPosts, Sources, DecodeSavedPost;
    out, dropped, collected := out0, dropped0, collected0;
    assert seen + PostsOn(items[..0]) == seen;
    for i := 0 to |items|
      invariant |out| < opts.maxItems
      invariant out == NewPosts(seen + PostsOn(items[..i]), opts.known)
      invariant collected == Sources(out)
      invariant dropped == dropped0 + UnreadableOn(items[..i])
    {
      NextItem(items, i, seen, opts.known);
      var decoded := DecodeSavedPost(items[i]);
      if decoded.Err? {
        dropped := dropped + 1;
        continue;
      }
      var post := decoded.value;
      if post.source in collected || opts.IsKnown(post.source) {
        continue;
      }
      SourcesAppend(out, post);
      collected := collected + {post.source};
      out := out + [post];
      if |out| >= opts.maxItems {
        TakenEarly(items, i + 1, seen, opts.known);
        return;
      }
    }
    assert items[..|items|] == items;
  }

  /** One more item: an unreadable one is counted; a readable one is new exactly when it is neither
      known nor already among the new. */
  lemma NextItem(items: seq<RawItem>, i: nat, seen: seq<SavedPost>, known: Option<string -> bool>)
    requires i < |items|
    ensures var before := NewPosts(seen + PostsOn(items[..i]), known);
            var after := NewPosts(seen + PostsOn(items[..i + 1]), known);
            var decoded := DecodeSavedPost(items[i]);
            && UnreadableOn(items[..i + 1]) == UnreadableOn(items[..i]) + (if decoded.Err? then 1 else 0)
            && after == if decoded.Err? || Known(known, decoded.value.source)
                           || decoded.value.source in Sources(before)
                        then before else before + [decoded.value]
  {
    var ps := seen + PostsOn(items[..i]);
    var decoded := DecodeSavedPost(items[i]);
    assert items[..i + 1][..i] == items[..i];
    if decoded.Ok? {
      NewPostsMeaning(ps, known);
      assert seen + PostsOn(items[..i + 1]) == ps + [decoded.value];
      assert (ps + [decoded.value])[..|ps|] == ps;
    }
  }

  lemma TakenEarly(items: seq<RawItem>, i: nat, seen: seq<SavedPost>, known: Option<string -> bool>)
    requires i <= |items|
    ensures NewPosts(seen + PostsOn(items[..i]), known) <= NewPosts(seen + PostsOn(items), known)
  {
    var before, after := seen + PostsOn(items[..i]), PostsOn(items[i..]);
    assert seen + PostsOn(items) == before + after by {
      PostsOnAppend(items[..i], items[i..]);
      assert items[..i] + items[i..] == items;
    }
    NewPostsGrow(before, after, known);
  }

  /** The three reasons to stop after a page that could be read are exactly those for which the
      chain does not lead on. */
  lemma AfterPage(r: Remote, o: FetchOptions, page: nat)
    requires page < o.Pages() && OnChain(r, page) && Readable(r, page)
    ensures var items, next := AnswerAt(r, page).items, AnswerAt(r, page).nextMaxID;
            if items == [] || next == "" || next in Followed(r, page) then
              ReadablePages(r, o.Pages(), 0) == page + 1 && !CutOffAt(r, o, page + 1)
            else
              && OnChain(r, page + 1)
              && page + 1 <= ReadablePages(r, o.Pages(), 0)
              && CursorAt(r, page + 1) == next
              && Followed(r, page + 1) == Followed(r, page) + {next}
  {
    hide CursorAt, Followed;
    ReadablePagesFrom(r, o.Pages(), page);
    NextCursor(r, page);
    if Continues(r, page) {
      ReadablePagesFrom(r, o.Pages(), page + 1);
    }
  }

  lemma NextCursor(r: Remote, page: nat)
    requires AnswerAt(r, page).Page?
    ensures CursorAt(r, page + 1) == AnswerAt(r, page).nextMaxID
    ensures Followed(r, page + 1) == Followed(r, page) + {AnswerAt(r, page).nextMaxID}
  {}

  /** What one more page adds. */
  lemma PageAdds(r: Remote, o: FetchOptions, page: nat)
    requires AnswerAt(r, page).Page?
    ensures NewOn(r, o, page + 1) == NewPosts(PostsOn(ItemsOf(r, page)) + PostsOn(AnswerAt(r, page).items), o.known)
    ensures UnreadableOn(ItemsOf(r, page + 1)) == UnreadableOn(ItemsOf(r, page)) + UnreadableOn(AnswerAt(r, page).items)
    ensures AnswerAt(r, page).items == [] ==> NewOn(r, o, page + 1) == NewOn(r, o, page)
  {
    hide NewPosts, PostsOn, UnreadableOn, CursorAt;
    PostsOnAppend(ItemsOf(r, page), AnswerAt(r, page).items);
    assert AnswerAt(r, page).items == [] ==> ItemsOf(r, page + 1) == ItemsOf(r, page);
  }

  /** The error of a page that cannot be read. */
  function PageError(r: Remote, page: nat): FetchError
  {
    if r.cancelled(page) then Cancelled
    else if AnswerAt(r, page).Failed? then RequestFailed(AnswerAt(r, page).error)
    else MalformedPage
  }

  /** One round of the loop up to the decoded page: the context check, the request and its decoding. */
  method FetchPage(remote: Remote, page: nat, maxID: string, requested0: seq<string>)
    returns (err: FetchError, items: seq<RawItem>, next: string, requested: seq<string>)
    requires maxID == CursorAt(remote, page)
    ensures err == NoError ==> Readable(remote, page) && AnswerAt(remote, page) == Page(items, next)
    ensures err != NoError ==> !Readable(remote, page) && err == PageError(remote, page)
    ensures requested == if remote.cancelled(page) then requested0 else requested0 + [maxID]
  {
    err, items, next, requested := NoError, [], "", requested0;
    if remote.cancelled(page) {
      err := Cancelled;
      return;
    }
    requested := requested + [maxID];
    match remote.answer(page, maxID) {
      case Failed(error) => err := RequestFailed(error);
      case NotAPage => err := MalformedPage;
      case Page(its, nextMaxID) => items, next := its, nextMaxID;
    }
  }

  /** What holds between two pages of the walk. */
  ghost predicate Walked(r: Remote, o: FetchOptions, page: nat, out: seq<SavedPost>, dropped: nat)
  {
    && page <= ReadablePages(r, o.Pages(), 0)
    && out == Take(NewOn(r, o, page), o.Items())
    && (|out| < o.Items() ==> dropped == UnreadableOn(ItemsOf(r, page)))
  }

  /** The walk over one readable page takes it one page on. */
  lemma PageWalked(r: Remote, o: FetchOptions, page: nat, out: seq<SavedPost>, dropped: nat,
                   out': seq<SavedPost>, dropped': nat)
    requires page < o.Pages() && OnChain(r, page) && Readable(r, page)
    requires Walked(r, o, page, out, dropped) && |out| < o.Items()
    requires var items := AnswerAt(r, page).items;
             && out' == Take(NewPosts(PostsOn(ItemsOf(r, page)) + PostsOn(items), o.known), o.Items())
             && (|out'| < o.Items() ==> dropped' == dropped + UnreadableOn(items))
    ensures Walked(r, o, page + 1, out', dropped')
  {
    AfterPage(r, o, page);
    PageAdds(r, o, page);
  }

  /** A walk still short of MaxItems holds everything new so far. */
  lemma ShortOfItems(r: Remote, o: FetchOptions, page: nat, out: seq<SavedPost>, dropped: nat)
    requires Walked(r, o, page, out, dropped) && |out| < o.Items()
    ensures out == NewPosts(PostsOn(ItemsOf(r, page)), o.known)
  {}

  lemma EmptyPage(r: Remote, o: FetchOptions, page: nat, out: seq<SavedPost>, dropped: nat)
    requires page < o.Pages() && OnChain(r, page) && Readable(r, page) && AnswerAt(r, page).items == []
    requires Walked(r, o, page, out, dropped)
    ensures Walked(r, o, page + 1, out, dropped)
  {
    AfterPage(r, o, page);
    PageAdds(r, o, page);
  }

  /** An unreadable page ends the walk with its error and with everything offered before it. */
  lemma WalkFails(r: Remote, o: FetchOptions, page: nat, out: seq<SavedPost>, dropped: nat)
    requires page < o.Pages() && OnChain(r, page) && !Readable(r, page)
    requires Walked(r, o, page, out, dropped) && |out| < o.Items()
    ensures out == Collected(r, o) && Reported(r, o) == PageError(r, page)
  {
    ReadablePagesFrom(r, o.Pages(), page);
    ShortWalk(r, o, page);
  }

  /** How a walk that met no failure ends: it is full, or it has reached the end of the chain. */
  lemma WalkEnds(r: Remote, o: FetchOptions, page: nat, out: seq<SavedPost>, dropped: nat)
    requires Walked(r, o, page, out, dropped)
    requires page <= o.Pages()
    requires |out| < o.Items() && page < o.Pages() ==> page == ReadablePages(r, o.Pages(), 0) && !CutOffAt(r, o, page)
    ensures out == Collected(r, o)
    ensures Reported(r, o) == if dropped > 0 && out == [] then NothingReadable else NoError
  {
    if |out| >= o.Items() {
      FullWalk(r, o, page);
    } else {
      ShortWalk(r, o, page);
    }
  }

  /** Where the walk starts, and what following a cursor or sending one adds. */
  lemma WalkStarts(r: Remote, o: FetchOptions)
    ensures OnChain(r, 0) && CursorAt(r, 0) == "" && Followed(r, 0) == {} && Walked(r, o, 0, [], 0)
    ensures Sources([]) == {} && Sent(r, 0) == [] && NoRepeats([])
  {}

  lemma CollectedFits(r: Remote, o: FetchOptions)
    ensures |Collected(r, o)| <= o.Items()
  {}

  lemma OneMoreSent(r: Remote, n: nat)
    requires OnChain(r, n)
    ensures Sent(r, n + 1) == Sent(r, n) + [CursorAt(r, n)] && NoRepeats(Sent(r, n + 1))
  {
    RequestsDistinct(r, n);
  }

  /** `pageMedia`. `requested` lists the cursors sent, in order. */
  method PageMedia(remote: Remote, options: FetchOptions)
    returns (out: seq<SavedPost>, err: FetchError, requested: seq<string>)
    ensures out == Collected(remote, options)
    ensures err == Reported(remote, options)
    ensures |out| <= (if options.maxItems > 0 then options.maxItems else 50)
    ensures |requested| <= (if options.maxPages > 0 then options.maxPages else 100)
    ensures requested == Sent(remote, |requested|) && NoRepeats(requested)
  {
    hide OnChain, CursorAt, Followed, Walked, Sources, Sent, NoRepeats, Collected, Reported, PageError, NewPosts,
      PostsOn, UnreadableOn, ItemsOf, ReadablePages, CutOffAt, Readable, Take, DecodeSavedPost;
    var opts := options.WithDefaults();
    WalkStarts(remote, options);
    CollectedFits(remote, options);
    out, requested := [], [];
    var dropped := 0;
    var maxID := "";
    var cursors: set<string> := {};
    var collected: set<string> := {};
    var page := 0;
    while |out| < opts.maxItems && page < opts.maxPages
      invariant page <= opts.maxPages && OnChain(remote, page)
      invariant Walked(remote, options, page, out, dropped)
      invariant maxID == CursorAt(remote, page)
      invariant cursors == Followed(remote, page)
      invariant collected == Sources(out)
      invariant requested == Sent(remote, page) && NoRepeats(requested)
      decreases opts.maxPages - page
    {
      OneMoreSent(remote, page);
      var items, next;
      err, items, next, requested := FetchPage(remote, page, maxID, requested);
      if err != NoError {
        WalkFails(remote, options, page, out, dropped);
        return;
      }
      AfterPage(remote, options, page);
      if items == [] {
        EmptyPage(remote, options, page, out, dropped);
        page := page + 1;
        break;
      }
      ShortOfItems(remote, options, page, out, dropped);
      ghost var out0, dropped0 := out, dropped;
      out, dropped, collected := TakeItems(items, opts, out, dropped, collected, PostsOn(ItemsOf(remote, page)));
      PageWalked(remote, options, page, out0, dropped0, out, dropped);
      page := page + 1;
      if next == "" || next in cursors {
        break;
      }
      cursors := cursors + {next};
      maxID := next;
    }
    WalkEnds(remote, options, page, out, dropped);
    if dropped > 0 && |out| == 0 {
      return [], NothingReadable, requested;
    }
    err := NoError;
  }

  // ---------------------------------------------------------------- what a walk guarantees

  /** r and ideal answer alike wherever r answers at all; ideal may answer more. */
  ghost predicate FailsNoLess(r: Remote, ideal: Remote)
  {
    && (forall k, c :: r.answer(k, c).Page? ==> ideal.answer(k, c) == r.answer(k, c))
    && (forall k :: !r.cancelled(k) ==> !ideal.cancelled(k))
  }

  /** Along a chain that r can follow, ideal answers, and is asked, the same. */
  lemma {:induction false} SameChain(r: Remote, ideal: Remote, n: nat)
    requires FailsNoLess(r, ideal) && OnChain(r, n)
    ensures OnChain(ideal, n)
    ensures CursorAt(r, n) == CursorAt(ideal, n) && Followed(r, n) == Followed(ideal, n)
    ensures ItemsOf(r, n) == ItemsOf(ideal, n)
  {
    if n > 0 {
      SameChain(r, ideal, n - 1);
      SamePage(r, ideal, n - 1);
    }
  }

  lemma SamePage(r: Remote, ideal: Remote, k: nat)
    requires FailsNoLess(r, ideal) && CursorAt(r, k) == CursorAt(ideal, k) && Followed(r, k) == Followed(ideal, k)
    requires Readable(r, k)
    ensures Readable(ideal, k) && AnswerAt(ideal, k) == AnswerAt(r, k)
    ensures Continues(r, k) <==> Continues(ideal, k)
  {}

  /** Where the readable part of the chain ends. */
  lemma {:induction false} LastPage(r: Remote, maxPages: nat, k: nat)
    requires k <= maxPages && OnChain(r, k)
    ensures var n := ReadablePages(r, maxPages, k);
            || (OnChain(r, n) && (n == maxPages || !Readable(r, n)))
            || (n > k && OnChain(r, n - 1) && Readable(r, n - 1) && !Continues(r, n - 1))
    decreases maxPages - k
  {
    if k < maxPages && Continues(r, k) {
      LastPage(r, maxPages, k + 1);
    }
  }

  /** The part of the chain that r can read, a remote that fails less can read too; a chain that
      ends by itself ends at the same page for both. */
  lemma LongerChain(r: Remote, ideal: Remote, o: FetchOptions, n: nat)
    requires FailsNoLess(r, ideal)
    requires n == ReadablePages(r, o.Pages(), 0)
    ensures ItemsOf(r, n) == ItemsOf(ideal, n)
    ensures n <= ReadablePages(ideal, o.Pages(), 0)
    ensures !CutOffAt(r, o, n) ==> ReadablePages(ideal, o.Pages(), 0) == n
  {
    hide ItemsOf, CursorAt, Followed, FailsNoLess, Readable, Continues;
    LastPage(r, o.Pages(), 0);
    if OnChain(r, n) {
      SameChain(r, ideal, n);
      ReadablePagesFrom(ideal, o.Pages(), n);
    } else {
      SameChain(r, ideal, n - 1);
      SamePage(r, ideal, n - 1);
      ReadablePagesFrom(ideal, o.Pages(), n - 1);
      OnePageFurther(r, ideal, n);
    }
  }

  lemma OnePageFurther(r: Remote, ideal: Remote, n: nat)
    requires n > 0 && ItemsOf(r, n - 1) == ItemsOf(ideal, n - 1) && AnswerAt(r, n - 1) == AnswerAt(ideal, n - 1)
    ensures ItemsOf(r, n) == ItemsOf(ideal, n)
  {}

  /** A walk cut off by an error or a cancellation has collected a prefix of what it would have
      collected without it, and everything when nothing cut it off. */
  lemma CutOffKeepsPrefix(r: Remote, ideal: Remote, o: FetchOptions)
    requires FailsNoLess(r, ideal)
    ensures Collected(r, o) <= Collected(ideal, o)
    ensures Reported(r, o) == NoError || Reported(r, o) == NothingReadable ==> Collected(r, o) == Collected(ideal, o)
  {
    var n := ReadablePages(r, o.Pages(), 0);
    LongerChain(r, ideal, o, n);
    NewOnPagesGrow(ideal, o, n, ReadablePages(ideal, o.Pages(), 0));
  }

  /** What a walk collects, by the raw items of the pages it could read: each post shows a readable item,
      none is known, no two have one source, and unless there are MaxItems of them no unknown readable item
      is missing. */
  lemma CollectedMeaning(r: Remote, o: FetchOptions)
    ensures var items, posts := ItemsOf(r, ReadablePages(r, o.Pages(), 0)), Collected(r, o);
            && |posts| <= o.Items()
            && (forall p <- posts :: !Known(o.known, p.source) && ShownBy(items, p))
            && (forall i, j | 0 <= i < j < |posts| :: posts[i].source != posts[j].source)
            && (|posts| < o.Items() ==>
                  forall raw, m | raw in items && Carries(raw, m) && m.code != "" ::
                    || Known(o.known, "https://www.instagram.com/p/" + m.code + "/")
                    || "https://www.instagram.com/p/" + m.code + "/" in Sources(posts))
  {
    var items := ItemsOf(r, ReadablePages(r, o.Pages(), 0));
    var ps := PostsOn(items);
    NewPostsMeaning(ps, o.known);
    NewPostsDistinct(ps, o.known);
    CollectedAreShown(items, o.known);
    forall p | p in Collected(r, o)
      ensures !Known(o.known, p.source) && ShownBy(items, p)
    {
      assert p in NewPosts(ps, o.known);
      assert p.source in Sources(NewPosts(ps, o.known));
    }
    forall raw, m | raw in items && Carries(raw, m) && m.code != ""
      ensures "https://www.instagram.com/p/" + m.code + "/" in Sources(ps)
    {
      ShownIsThere(items, raw, m);
    }
  }

  ghost predicate ShownBy(items: seq<RawItem>, p: SavedPost)
  {
    exists raw, m :: raw in items && Carries(raw, m) && m.code != "" && Shows(p, m)
  }

  lemma CollectedAreShown(items: seq<RawItem>, known: Option<string -> bool>)
    ensures forall p <- NewPosts(PostsOn(items), known) :: ShownBy(items, p)
  {
    var at := PostsOnMeaning(items);
    forall p | p in NewPosts(PostsOn(items), known)
      ensures ShownBy(items, p)
    {
      var k := NewPostsAreFirst(PostsOn(items), known, p);
      var m :| Carries(items[at[k]], m) && Shows(p, m);
      assert at[k] in at;
      assert items[at[k]] in items;
    }
  }

  lemma ShownIsThere(items: seq<RawItem>, raw: RawItem, m: Media)
    requires raw in items && Carries(raw, m) && m.code != ""
    ensures "https://www.instagram.com/p/" + m.code + "/" in Sources(PostsOn(items))
  {
    var at := PostsOnMeaning(items);
    var i :| 0 <= i < |items| && items[i] == raw;
    assert i in at;
    var k :| 0 <= k < |at| && at[k] == i;
    assert PostsOn(items)[k] in PostsOn(items);
  }

  /** Which error a walk reports besides "none readable": a walk short of MaxItems came, along the chain and
      within MaxPages, to a page at which the context was done, the request failed, or the answer was no
      page. */
  lemma ReportedMeaning(r: Remote, o: FetchOptions)
    ensures Reported(r, o) == Cancelled <==>
              |Collected(r, o)| < o.Items() && exists n: nat :: n < o.Pages() && OnChain(r, n) && r.cancelled(n)
    ensures forall e :: Reported(r, o) == RequestFailed(e) <==>
              && |Collected(r, o)| < o.Items()
              && exists n: nat ::
                   n < o.Pages() && OnChain(r, n) && !r.cancelled(n) && AnswerAt(r, n) == Response.Failed(e)
    ensures Reported(r, o) == MalformedPage <==>
              && |Collected(r, o)| < o.Items()
              && exists n: nat :: n < o.Pages() && OnChain(r, n) && !r.cancelled(n) && AnswerAt(r, n) == NotAPage
  {
    hide OnChain, AnswerAt, NewOn, UnreadableOn, ItemsOf;
    var end := ReadablePages(r, o.Pages(), 0);
    forall n: nat | n < o.Pages() && OnChain(r, n) && !Readable(r, n)
      ensures n == end && CutOffAt(r, o, end)
    {
      ReadablePagesFrom(r, o.Pages(), n);
    }
  }

  /** When "none readable" is reported: the walk ran to its end, no readable item was new, and some
      item could not be read. Readable items may well have been there, if all of them are known. */
  lemma DriftExactly(r: Remote, o: FetchOptions)
    ensures var n := ReadablePages(r, o.Pages(), 0);
            Reported(r, o) == NothingReadable <==>
              && !CutOffAt(r, o, n)
              && (forall p <- PostsOn(ItemsOf(r, n)) :: Known(o.known, p.source))
              && UnreadableOn(ItemsOf(r, n)) > 0
  {
    var ps := PostsOn(ItemsOf(r, ReadablePages(r, o.Pages(), 0)));
    NewPostsMeaning(ps, o.known);
    if forall p <- ps :: Known(o.known, p.source) {
      NoSources(Offered(r, o));
    } else {
      var p :| p in ps && !Known(o.known, p.source);
      assert p.source in Sources(ps);
      assert p.source in Sources(Offered(r, o));
    }
  }

  /** The comment on ErrSchemaDrift says that no item of the feed could be read. One readable post
      that was imported earlier, next to one unreadable item, is reported just the same. */
  lemma DriftWithReadablePost() returns (r: Remote, o: FetchOptions)
    ensures Reported(r, o) == NothingReadable
    ensures PostsOn(ItemsOf(r, ReadablePages(r, o.Pages(), 0))) != []
  {
    var items := [Item(None, Media("abc", None, None)), Malformed];
    r := Remote((k, c) => Page(items, ""), k => false);
    o := FetchOptions(1, 1, Some(s => true));
    var n := ReadablePages(r, o.Pages(), 0);
    OnePage(r, items);
    assert n == 1 && !CutOffAt(r, o, n);
    OneReadable(items);
    assert ItemsOf(r, n) == items;
    DriftExactly(r, o);
  }

  lemma OnePage(r: Remote, items: seq<RawItem>)
    requires r.answer(0, "") == Page(items, "") && !r.cancelled(0)
    ensures ReadablePages(r, 1, 0) == 1 && ItemsOf(r, 1) == items
  {
    assert CursorAt(r, 0) == "" && AnswerAt(r, 0) == Page(items, "");
    assert ItemsOf(r, 0) == [];
  }

  lemma OneReadable(items: seq<RawItem>)
    requires |items| == 2 && DecodeSavedPost(items[0]).Ok? && DecodeSavedPost(items[1]).Err?
    ensures PostsOn(items) == [DecodeSavedPost(items[0]).value] && UnreadableOn(items) == 1
  {
    var first := items[..1];
    assert first[..0] == [] && items[..|items| - 1] == first;
    assert PostsOn(first) == [DecodeSavedPost(items[0]).value] && UnreadableOn(first) == 0;
  }
}
