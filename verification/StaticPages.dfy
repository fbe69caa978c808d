/** Public static pages: the table, its writers and the in-memory page cache of its reader.
    Markdown rendering and sanitising are one unknown function. */
module StaticPages {
  import opened Common
  import opened Text

  datatype Status = DRAFT | PUBLISHED

  /** A row of the table; its identifier is its position, since rows are never deleted. */
  datatype Row = Row(slug: string, title: string, content: string, status: Status, updatedAt: nat,
                     publishedAt: Option<nat>, meta: Option<string>)

  datatype Page = Page(slug: string, title: string, html: string, updatedAt: nat, publishedAt: Option<nat>)

  datatype Entry = Entry(page: Page, cachedAt: nat)

  datatype PageError = SlugInvalid | SlugExists | NotFound

  /** Fields that an update leaves out stay as they are. */
  datatype Changes = Changes(slug: Option<string>, title: Option<string>, content: Option<string>,
                             meta: Option<Option<string>>)

  const CACHE_TTL_MS := 600000

  predicate SlugValid(slug: string) { slug != "" && forall c <- slug :: SlugChar(c) }

  /** The published row with a slug. */
  function FindPublished(rows: seq<Row>, slug: string): (r: Option<nat>)
    ensures r.Some? ==> r.value < |rows| && rows[r.value].slug == slug && rows[r.value].status == PUBLISHED
    ensures r.None? ==> forall i :: 0 <= i < |rows| ==> !(rows[i].slug == slug && rows[i].status == PUBLISHED)
  {
    if rows == [] then None
    else
      var last := |rows| - 1;
      if rows[last].slug == slug && rows[last].status == PUBLISHED then Some(last)
      else FindPublished(rows[..last], slug)
  }

  function Rendered(row: Row, render: string -> string): Page {
    Page(row.slug, row.title, render(row.content), row.updatedAt, row.publishedAt)
  }

  /** What a reader without a cache answers. */
  function Uncached(rows: seq<Row>, slug: string, render: string -> string): Option<Page> {
    if !SlugValid(slug) then None
    else
      match FindPublished(rows, slug)
      case None => None
      case Some(i) => Some(Rendered(rows[i], render))
  }

  predicate Taken(rows: seq<Row>, slug: string) { exists row <- rows :: row.slug == slug }

  ghost predicate UniqueSlugs(rows: seq<Row>) {
    forall i, j :: 0 <= i < j < |rows| ==> rows[i].slug != rows[j].slug
  }

  /** Every cache entry is what the table would answer now. */
  ghost predicate Coherent(rows: seq<Row>, cache: map<string, Entry>, render: string -> string) {
    forall slug <- cache :: Uncached(rows, slug, render) == Some(cache[slug].page)
  }

  predicate Expired(e: Entry, now: nat) { now - e.cachedAt > CACHE_TTL_MS }

  function Changed(row: Row, c: Changes): Row {
    row.(slug := if c.slug.Some? then Trim(c.slug.value) else row.slug,
         title := if c.title.Some? then Trim(c.title.value) else row.title,
         content := if c.content.Some? then c.content.value else row.content,
         meta := if c.meta.Some? then c.meta.value else row.meta)
  }

  function UpdateError(rows: seq<Row>, pageId: nat, c: Changes): Option<PageError> {
    if pageId >= |rows| then Some(NotFound)
    else if c.slug.None? then None
    else if !SlugValid(Trim(c.slug.value)) then Some(SlugInvalid)
    else if Trim(c.slug.value) == rows[pageId].slug then None
    else if Taken(rows[..pageId] + rows[pageId + 1..], Trim(c.slug.value)) then Some(SlugExists)
    else None
  }

  datatype Op =
    | Create(slug: string, title: string, content: string, status: Status, meta: Option<string>)
    | Update(pageId: nat, changes: Changes)
    | Publish(pageId: nat)
    | Unpublish(pageId: nat)
    | Read(wanted: string)

  datatype Reply = Done(pageId: nat) | Failed(error: PageError) | Answer(page: Option<Page>)

  datatype Store = Store(rows: seq<Row>, cache: map<string, Entry>)

  function OpError(rows: seq<Row>, op: Op): Option<PageError> {
    match op
    case Create(slug, _, _, _, _) =>
      if !SlugValid(Trim(slug)) then Some(SlugInvalid) else if Taken(rows, Trim(slug)) then Some(SlugExists) else None
    case Update(pageId, c) => UpdateError(rows, pageId, c)
    case Publish(pageId) => if pageId >= |rows| then Some(NotFound) else None
    case Unpublish(pageId) => if pageId >= |rows| then Some(NotFound) else None
    case Read(_) => None
  }

  function RowsAfter(rows: seq<Row>, op: Op, now: nat): seq<Row>
    requires OpError(rows, op).None?
  {
    match op
    case Create(slug, title, content, status, meta) =>
      rows + [Row(Trim(slug), Trim(title), content, status, now, if status == PUBLISHED then Some(now) else None, meta)]
    case Update(pageId, c) =>
      var row := Changed(rows[pageId], c);
      if row == rows[pageId] then rows else rows[pageId := row.(updatedAt := now)]
    case Publish(pageId) =>
      if rows[pageId].status == PUBLISHED then rows
      else rows[pageId := rows[pageId].(status := PUBLISHED, publishedAt := Some(now), updatedAt := now)]
    case Unpublish(pageId) =>
      if rows[pageId].status == DRAFT && rows[pageId].publishedAt.None? then rows
      else rows[pageId := rows[pageId].(status := DRAFT, publishedAt := None, updatedAt := now)]
    case Read(_) => rows
  }

  /** Invalidating an empty slug clears the whole cache. */
  function Without(cache: map<string, Entry>, slug: string): map<string, Entry> {
    if slug != "" then cache - {slug} else map[]
  }

  /** What a successful writer leaves in the cache. */
  function CacheAfter(cache: map<string, Entry>, rows: seq<Row>, op: Op): map<string, Entry>
    requires OpError(rows, op).None?
  {
    match op
    case Create(_, _, _, _, _) => cache
    case Update(pageId, c) =>
      var before, after := rows[pageId], Changed(rows[pageId], c);
      if after == before then cache
      else if after.slug == before.slug then Without(cache, before.slug)
      else Without(Without(cache, before.slug), after.slug)
    case Publish(pageId) => Without(cache, rows[pageId].slug)
    case Unpublish(pageId) => Without(cache, rows[pageId].slug)
    case Read(_) => cache
  }

  /** A live entry is served; otherwise the answer of the table is stored. */
  function ReadCache(s: Store, slug: string, now: nat, render: string -> string): (map<string, Entry>, Option<Page>) {
    if !SlugValid(slug) then (s.cache, None)
    else if slug in s.cache && !Expired(s.cache[slug], now) then (s.cache, Some(s.cache[slug].page))
    else
      match Uncached(s.rows, slug, render)
      case None => (s.cache - {slug}, None)
      case Some(page) => (s.cache[slug := Entry(page, now)], Some(page))
  }

  ghost predicate Step(s: Store, s': Store, op: Op, now: nat, reply: Reply, render: string -> string) {
    match OpError(s.rows, op)
    case Some(error) => s' == s && reply == Failed(error)
    case None =>
      && s'.rows == RowsAfter(s.rows, op, now)
      && if op.Read? then
           var (cache, page) := ReadCache(s, op.wanted, now, render);
           s'.cache == cache && reply == Answer(page)
         else s'.cache == CacheAfter(s.cache, s.rows, op) && reply == Done(if op.Create? then |s.rows| else op.pageId)
  }

  /** What an update answers and does, field by field. */
  lemma UpdateMeans(s: Store, s': Store, pageId: nat, c: Changes, now: nat, reply: Reply, render: string -> string)
    requires Step(s, s', Update(pageId, c), now, reply, render)
    ensures reply == Failed(NotFound) <==> pageId >= |s.rows|
    ensures pageId < |s.rows| ==>
      var row := s.rows[pageId];
      var slug := if c.slug.Some? then Trim(c.slug.value) else row.slug;
      var wellFormed := slug != "" && forall ch <- slug :: 'a' <= ch <= 'z' || '0' <= ch <= '9' || ch == '-';
      var taken := exists i :: 0 <= i < |s.rows| && i != pageId && s.rows[i].slug == slug;
      && (reply == Failed(SlugInvalid) <==> c.slug.Some? && !wellFormed)
      && (reply == Failed(SlugExists) <==> c.slug.Some? && wellFormed && slug != row.slug && taken)
      && (reply.Failed? ==> s'.rows == s.rows && s'.cache == s.cache)
    ensures reply.Done? ==>
      var row := s.rows[pageId];
      var slug := if c.slug.Some? then Trim(c.slug.value) else row.slug;
      var title := if c.title.Some? then Trim(c.title.value) else row.title;
      var content := if c.content.Some? then c.content.value else row.content;
      var meta := if c.meta.Some? then c.meta.value else row.meta;
      && reply.pageId == pageId && pageId < |s.rows| && |s'.rows| == |s.rows|
      && (forall i :: 0 <= i < |s'.rows| && i != pageId ==> s'.rows[i] == s.rows[i])
      && if (slug, title, content, meta) == (row.slug, row.title, row.content, row.meta)
         then s'.rows[pageId] == row && s'.cache == s.cache
         else s'.rows[pageId] == Row(slug, title, content, row.status, now, row.publishedAt, meta)
              && row.slug !in s'.cache && slug !in s'.cache
  {
    hide Trim;
    if pageId < |s.rows| {
      var others := s.rows[..pageId] + s.rows[pageId + 1..];
      forall i | 0 <= i < |s.rows| && i != pageId ensures s.rows[i] in others {
        assert s.rows[i] == others[if i < pageId then i else i - 1];
      }
      forall row <- others ensures exists i :: 0 <= i < |s.rows| && i != pageId && s.rows[i] == row {
        var k :| 0 <= k < |others| && others[k] == row;
        assert s.rows[if k < pageId then k else k + 1] == row;
      }
    }
  }

  class PageStore {
    var rows: seq<Row>
    var pageCache: map<string, Entry>
    const render: string -> string

    ghost function Current(): Store
      reads this
    {
      Store(rows, pageCache)
    }

    constructor (rows: seq<Row>, render: string -> string)
      ensures Current() == Store(rows, map[]) && this.render == render
    {
      this.rows, pageCache, this.render := rows, map[], render;
    }

    method GetCachedPage(slug: string, now: nat) returns (page: Option<Page>)
      modifies this`pageCache
      ensures page.Some? <==> slug in old(pageCache) && now - old(pageCache)[slug].cachedAt <= 600000
      ensures page.Some? ==> page.value == old(pageCache)[slug].page
      ensures pageCache == if page.Some? then old(pageCache) else old(pageCache) - {slug}
    {
      if slug !in pageCache {
        return None;
      }
      var entry := pageCache[slug];
      if Expired(entry, now) {
        pageCache := pageCache - {slug};
        return None;
      }
      page := Some(entry.page);
    }

    /** Without a slug, or with an empty one, the whole cache is cleared. */
    method InvalidateStaticPageCache(slug: Option<string>)
      modifies this`pageCache
      ensures pageCache == if slug.Some? && slug.value != "" then old(pageCache) - {slug.value} else map[]
    {
      if slug.Some? && slug.value != "" {
        pageCache := pageCache - {slug.value};
      } else {
        pageCache := map[];
      }
    }

    method GetPublishedStaticPage(slug: string, now: nat) returns (page: Option<Page>)
      modifies this`pageCache
      ensures Step(old(Current()), Current(), Read(slug), now, Answer(page), render)
      ensures var wellFormed := slug != "" && forall c <- slug :: 'a' <= c <= 'z' || '0' <= c <= '9' || c == '-';
        var live := slug in old(pageCache) && now - old(pageCache)[slug].cachedAt <= 600000;
        && (!wellFormed ==> page.None? && pageCache == old(pageCache))
        && (wellFormed && live ==> page == Some(old(pageCache)[slug].page) && pageCache == old(pageCache))
        && (wellFormed && !live ==>
              && (page.Some? <==> exists row <- rows :: row.slug == slug && row.status == PUBLISHED)
              && pageCache ==
                 if page.Some? then old(pageCache)[slug := Entry(page.value, now)] else old(pageCache) - {slug})
        && (wellFormed && !live && page.Some? ==>
              exists row <- rows ::
                && row.slug == slug && row.status == PUBLISHED
                && page.value == Page(slug, row.title, render(row.content), row.updatedAt, row.publishedAt))
    {
      if !SlugValid(slug) {
        return None;
      }
      page := GetCachedPage(slug, now);
      if page.Some? {
        return;
      }
      match FindPublished(rows, slug) {
        case None =>
        case Some(i) =>
          page := Some(Rendered(rows[i], render));
          pageCache := pageCache[slug := Entry(page.value, now)];
          assert old(pageCache)[slug := Entry(page.value, now)] ==
            (old(pageCache) - {slug})[slug := Entry(page.value, now)];
      }
    }

    method CreateStaticPage(slug: string, title: string, content: string, status: Status, meta: Option<string>,
                            now: nat)
      returns (reply: Reply)
      modifies this`rows
      ensures Step(old(Current()), Current(), Create(slug, title, content, status, meta), now, reply, render)
      ensures var wellFormed := Trim(slug) != "" && forall c <- Trim(slug) ::
            'a' <= c <= 'z' || '0' <= c <= '9' || c == '-';
        var taken := exists row <- old(rows) :: row.slug == Trim(slug);
        if !wellFormed then reply == Failed(SlugInvalid) && rows == old(rows)
        else if taken then reply == Failed(SlugExists) && rows == old(rows)
        else reply == Done(|old(rows)|) && rows == old(rows) + [
          Row(Trim(slug), Trim(title), content, status, now, if status == PUBLISHED then Some(now) else None, meta)]
    {
      var trimmed := Trim(slug);
      if !SlugValid(trimmed) {
        return Failed(SlugInvalid);
      }
      if Taken(rows, trimmed) {
        return Failed(SlugExists);
      }
      reply := Done(|rows|);
      var publishedAt := if status == PUBLISHED then Some(now) else None;
      rows := rows + [Row(trimmed, Trim(title), content, status, now, publishedAt, meta)];
    }

    method NextSlug(pageId: nat, slug: Option<string>) returns (r: Result<string, PageError>)
      requires pageId < |rows|
      ensures var error := UpdateError(rows, pageId, Changes(slug, None, None, None));
        r == if error.Some? then Failure(error.value)
             else Success(if slug.Some? then Trim(slug.value) else rows[pageId].slug)
    {
      if slug.None? {
        return Success(rows[pageId].slug);
      }
      var trimmed := Trim(slug.value);
      if !SlugValid(trimmed) {
        return Failure(SlugInvalid);
      }
      if trimmed != rows[pageId].slug && Taken(rows[..pageId] + rows[pageId + 1..], trimmed) {
        return Failure(SlugExists);
      }
      r := Success(trimmed);
    }

    method UpdateStaticPage(pageId: nat, c: Changes, now: nat) returns (reply: Reply)
      modifies this
      ensures Step(old(Current()), Current(), Update(pageId, c), now, reply, render)
    {
      if pageId >= |rows| {
        return Failed(NotFound);
      }
      var current := rows[pageId];
      var next := NextSlug(pageId, c.slug);
      if next.Failure? {
        return Failed(next.error);
      }
      var nextSlug := next.value;
      var nextTitle := if c.title.Some? then Trim(c.title.value) else current.title;
      var nextContent := if c.content.Some? then c.content.value else current.content;
      var nextMeta := if c.meta.Some? then c.meta.value else current.meta;
      reply := Done(pageId);
      if nextSlug != current.slug || nextTitle != current.title || nextContent != current.content ||
        nextMeta != current.meta {
        var updated := current.(slug := nextSlug, title := nextTitle, content := nextContent, meta := nextMeta);
        rows := rows[pageId := updated.(updatedAt := now)];
        InvalidateStaticPageCache(Some(current.slug));
        if current.slug != nextSlug {
          InvalidateStaticPageCache(Some(nextSlug));
        }
      }
    }

    method PublishStaticPage(pageId: nat, now: nat) returns (reply: Reply)
      modifies this
      ensures Step(old(Current()), Current(), Publish(pageId), now, reply, render)
      ensures if pageId < |old(rows)| then reply == Done(pageId)
              else reply == Failed(NotFound) && rows == old(rows) && pageCache == old(pageCache)
      ensures reply.Done? ==>
        var row := old(rows)[pageId];
        && |rows| == |old(rows)| && (forall i :: 0 <= i < |rows| && i != pageId ==> rows[i] == old(rows)[i])
        && rows[pageId] == (
             if row.status == PUBLISHED then row
             else Row(row.slug, row.title, row.content, PUBLISHED, now, Some(now), row.meta))
        && row.slug !in pageCache
    {
      if pageId >= |rows| {
        return Failed(NotFound);
      }
      var current := rows[pageId];
      if current.status != PUBLISHED {
        rows := rows[pageId := current.(status := PUBLISHED, publishedAt := Some(now), updatedAt := now)];
      }
      InvalidateStaticPageCache(Some(rows[pageId].slug));
      reply := Done(pageId);
    }

    method UnpublishStaticPage(pageId: nat, now: nat) returns (reply: Reply)
      modifies this
      ensures Step(old(Current()), Current(), Unpublish(pageId), now, reply, render)
      ensures if pageId < |old(rows)| then reply == Done(pageId)
              else reply == Failed(NotFound) && rows == old(rows) && pageCache == old(pageCache)
      ensures reply.Done? ==>
        var row := old(rows)[pageId];
        && |rows| == |old(rows)| && (forall i :: 0 <= i < |rows| && i != pageId ==> rows[i] == old(rows)[i])
        && rows[pageId] == (
             if row.status == DRAFT && row.publishedAt.None? then row
             else Row(row.slug, row.title, row.content, DRAFT, now, None, row.meta))
        && row.slug !in pageCache
    {
      if pageId >= |rows| {
        return Failed(NotFound);
      }
      var current := rows[pageId];
      if current.status != DRAFT || current.publishedAt.Some? {
        rows := rows[pageId := current.(status := DRAFT, publishedAt := None, updatedAt := now)];
      }
      InvalidateStaticPageCache(Some(rows[pageId].slug));
      reply := Done(pageId);
    }
  }

  // ------------------------------------------------------- coherence, atomically

  /** With unique slugs, the published row of a slug is found wherever it is. */
  lemma {:induction false} PublishedIsFound(rows: seq<Row>, i: nat)
    requires UniqueSlugs(rows) && i < |rows| && rows[i].status == PUBLISHED
    ensures FindPublished(rows, rows[i].slug) == Some(i)
  {
    var found := FindPublished(rows, rows[i].slug);
    assert found.Some? && rows[found.value].slug == rows[i].slug;
  }

  /** Two tables that agree on the published rows of a slug answer alike. */
  lemma SameAnswer(rows: seq<Row>, rows': seq<Row>, slug: string, render: string -> string)
    requires UniqueSlugs(rows')
    requires FindPublished(rows, slug).Some?
    requires var i := FindPublished(rows, slug).value; i < |rows'| && rows'[i] == rows[i]
    ensures Uncached(rows', slug, render) == Uncached(rows, slug, render)
  {
    PublishedIsFound(rows', FindPublished(rows, slug).value);
  }

  lemma NotTakenElsewhere(rows: seq<Row>, pageId: nat, slug: string)
    requires UniqueSlugs(rows) && pageId < |rows|
    requires slug == rows[pageId].slug || !Taken(rows[..pageId] + rows[pageId + 1..], slug)
    ensures forall i :: 0 <= i < |rows| && i != pageId ==> rows[i].slug != slug
  {
    var others := rows[..pageId] + rows[pageId + 1..];
    forall i | 0 <= i < |rows| && i != pageId ensures rows[i].slug != slug {
      assert rows[i] == others[if i < pageId then i else i - 1];
      assert rows[i] in others;
    }
  }

  lemma WritersKeepSlugsUnique(rows: seq<Row>, op: Op, now: nat)
    requires UniqueSlugs(rows) && OpError(rows, op).None?
    ensures UniqueSlugs(RowsAfter(rows, op, now))
  {
    hide Trim, SlugValid;
    match op {
      case Create(slug, _, _, _, _) =>
        assert forall row <- rows :: row.slug != Trim(slug);
      case Update(pageId, c) =>
        NotTakenElsewhere(rows, pageId, Changed(rows[pageId], c).slug);
      case _ =>
    }
  }

  lemma WritersKeepCoherence(s: Store, s': Store, op: Op, now: nat, reply: Reply, render: string -> string)
    requires !op.Read? && UniqueSlugs(s.rows) && Coherent(s.rows, s.cache, render)
    requires Step(s, s', op, now, reply, render)
    ensures Coherent(s'.rows, s'.cache, render)
  {
    if OpError(s.rows, op).None? {
      WritersKeepSlugsUnique(s.rows, op, now);
      forall slug <- s'.cache ensures Uncached(s'.rows, slug, render) == Some(s'.cache[slug].page) {
        assert Uncached(s.rows, slug, render) == Some(s.cache[slug].page);
        SameAnswer(s.rows, s'.rows, slug, render);
      }
    }
  }

  datatype Event = Event(op: Op, now: nat, reply: Reply)

  ghost predicate IsRun(states: seq<Store>, events: seq<Event>, render: string -> string) {
    && |states| == |events| + 1 && UniqueSlugs(states[0].rows) && states[0].cache == map[]
    && forall i :: 0 <= i < |events| ==> Happens(states[i], states[i + 1], events[i], render)
  }

  ghost predicate Happens(s: Store, s': Store, e: Event, render: string -> string) {
    Step(s, s', e.op, e.now, e.reply, render)
  }

  lemma {:induction false} RunIsCoherent(states: seq<Store>, events: seq<Event>, render: string -> string, k: nat)
    requires IsRun(states, events, render) && k < |states|
    ensures UniqueSlugs(states[k].rows) && Coherent(states[k].rows, states[k].cache, render)
    decreases k
  {
    if k > 0 {
      RunIsCoherent(states, events, render, k - 1);
      var e := events[k - 1];
      assert Happens(states[k - 1], states[k - 1 + 1], e, render);
      if !e.op.Read? {
        if OpError(states[k - 1].rows, e.op).None? {
          WritersKeepSlugsUnique(states[k - 1].rows, e.op, e.now);
        }
        WritersKeepCoherence(states[k - 1], states[k], e.op, e.now, e.reply, render);
      }
    }
  }

  /** Main result: with operations taken one after the other, every cached read answers what
      an uncached read of the same moment would. */
  lemma ReadsIgnoreTheCache(states: seq<Store>, events: seq<Event>, render: string -> string, k: nat)
    requires IsRun(states, events, render) && k < |events| && events[k].op.Read?
    ensures events[k].reply == Answer(Uncached(states[k].rows, events[k].op.wanted, render))
  {
    RunIsCoherent(states, events, render, k);
    assert Happens(states[k], states[k + 1], events[k], render);
  }

  /** No two pages ever share a slug. */
  lemma SlugsStayUnique(states: seq<Store>, events: seq<Event>, render: string -> string, k: nat, i: nat, j: nat)
    requires IsRun(states, events, render) && k < |states| && i < j < |states[k].rows|
    ensures states[k].rows[i].slug != states[k].rows[j].slug
  {
    RunIsCoherent(states, events, render, k);
  }

  // ------------------------------------------------- staleness, interleaved

  /** A reader's answer from the table, not yet stored in the cache. */
  datatype Load = Load(slug: string, page: Page, at: nat)

  /** Readers and writers share the cache and the table but interleave freely. */
  datatype System = System(rows: seq<Row>, cache: map<string, Entry>, loads: map<nat, Load>, now: nat)

  datatype Action =
    | Commit(rows: seq<Row>)
    | Invalidate(slug: string)
    | LoadPage(reader: nat, slug: string)
    | StorePage(reader: nat)
    | Serve(slug: string, page: Page)

  /** Time does not run backwards, and a reader stores what it loaded within `delay`. */
  ghost predicate Acts(s: System, s': System, a: Action, delay: nat, render: string -> string) {
    && s.now <= s'.now
    && match a {
         case Commit(rows) => s' == s.(rows := rows, now := s'.now)
         case Invalidate(slug) => s' == s.(cache := Without(s.cache, slug), now := s'.now)
         case LoadPage(reader, slug) =>
           var answer := Uncached(s.rows, slug, render);
           && answer.Some? && s' == s.(loads := s.loads[reader := Load(slug, answer.value, s'.now)], now := s'.now)
         case StorePage(reader) =>
           && reader in s.loads && s'.now <= s.loads[reader].at + delay
           && var load := s.loads[reader];
              s' == s.(cache := s.cache[load.slug := Entry(load.page, s'.now)],
                       loads := s.loads - {reader}, now := s'.now)
         case Serve(slug, page) =>
           && slug in s.cache && !Expired(s.cache[slug], s'.now) && page == s.cache[slug].page &&
             s' == s.(now := s'.now)
       }
  }

  ghost predicate IsTrace(states: seq<System>, actions: seq<Action>, delay: nat, render: string -> string) {
    && |states| == |actions| + 1 && states[0].cache == map[] && states[0].loads == map[]
    && forall i :: 0 <= i < |actions| ==> Acts(states[i], states[i + 1], actions[i], delay, render)
  }

  /** The table gave this answer at a moment between `from` and `until`. */
  ghost predicate WasAnswered(states: seq<System>, n: nat, slug: string, page: Page, from: int, until: nat,
                              render: string -> string)
    requires n <= |states|
  {
    exists k: nat :: k < n && from <= states[k].now <= until && Uncached(states[k].rows, slug, render) == Some(page)
  }

  ghost predicate Sourced(states: seq<System>, n: nat, delay: nat, render: string -> string)
    requires n < |states|
  {
    && (forall reader <- states[n].loads ::
          var load := states[n].loads[reader];
          WasAnswered(states, n + 1, load.slug, load.page, load.at, load.at, render))
    && (forall slug <- states[n].cache ::
          var e := states[n].cache[slug];
          WasAnswered(states, n + 1, slug, e.page, e.cachedAt - delay, e.cachedAt, render))
  }

  lemma StillAnswered(states: seq<System>, n: nat, slug: string, page: Page, from: int, until: nat,
                      from': int, until': nat, render: string -> string)
    requires n < |states| && WasAnswered(states, n, slug, page, from, until, render) && from' <= from && until <= until'
    ensures WasAnswered(states, n + 1, slug, page, from', until', render)
  {
    var k: nat :| k < n && from <= states[k].now <= until && Uncached(states[k].rows, slug, render) == Some(page);
    assert k < n + 1;
  }

  lemma {:induction false} TimesArePast(states: seq<System>, actions: seq<Action>, delay: nat,
                                        render: string -> string, n: nat)
    requires IsTrace(states, actions, delay, render) && n < |states|
    ensures forall slug <- states[n].cache :: states[n].cache[slug].cachedAt <= states[n].now
    ensures forall reader <- states[n].loads :: states[n].loads[reader].at <= states[n].now
    decreases n
  {
    if n > 0 {
      TimesArePast(states, actions, delay, render, n - 1);
      assert Acts(states[n - 1], states[n - 1 + 1], actions[n - 1], delay, render);
    }
  }

  lemma {:induction false} TraceIsSourced(states: seq<System>, actions: seq<Action>, delay: nat,
                                          render: string -> string, n: nat)
    requires IsTrace(states, actions, delay, render) && n < |states|
    ensures Sourced(states, n, delay, render)
    decreases n
  {
    if n > 0 {
      TraceIsSourced(states, actions, delay, render, n - 1);
      TimesArePast(states, actions, delay, render, n - 1);
      var s, s', a := states[n - 1], states[n], actions[n - 1];
      assert Acts(states[n - 1], states[n - 1 + 1], a, delay, render);
      forall reader <- s'.loads
        ensures var load := s'.loads[reader]; WasAnswered(states, n + 1, load.slug, load.page, load.at, load.at, render)
      {
        var load := s'.loads[reader];
        if a.LoadPage? && reader == a.reader {
          assert Uncached(states[n].rows, load.slug, render) == Some(load.page);
        } else {
          StillAnswered(states, n, load.slug, load.page, load.at, load.at, load.at, load.at, render);
        }
      }
      forall slug <- s'.cache
        ensures var e := s'.cache[slug];
          WasAnswered(states, n + 1, slug, e.page, e.cachedAt - delay, e.cachedAt, render)
      {
        var e := s'.cache[slug];
        if a.StorePage? && slug == s.loads[a.reader].slug {
          var load := s.loads[a.reader];
          StillAnswered(states, n, slug, load.page, load.at, load.at, e.cachedAt - delay, e.cachedAt, render);
        } else {
          StillAnswered(states, n, slug, e.page, e.cachedAt - delay, e.cachedAt, e.cachedAt - delay, e.cachedAt,
            render);
        }
      }
    }
  }

  /** However readers, commits and invalidations interleave, a page served from the cache is
      what the table answered at some moment no further back than the lifetime of an entry plus
      the longest time a reader takes between loading and storing. */
  lemma StalenessIsBounded(states: seq<System>, actions: seq<Action>, delay: nat, render: string -> string, n: nat)
    requires IsTrace(states, actions, delay, render) && n < |actions| && actions[n].Serve?
    ensures WasAnswered(states, n + 1, actions[n].slug, actions[n].page,
                        states[n + 1].now - CACHE_TTL_MS - delay, states[n + 1].now, render)
  {
    assert Acts(states[n], states[n + 1], actions[n], delay, render);
    TraceIsSourced(states, actions, delay, render, n);
    var e := states[n].cache[actions[n].slug];
    TimesArePast(states, actions, delay, render, n);
    var k: nat :| k < n + 1 && e.cachedAt - delay <= states[k].now <= e.cachedAt
      && Uncached(states[k].rows, actions[n].slug, render) == Some(e.page);
    assert states[n + 1].now - CACHE_TTL_MS - delay <= states[k].now <= states[n + 1].now;
  }
}
