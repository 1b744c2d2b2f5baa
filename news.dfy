/**
  The sector news board of NewsSystem: one article list shared by the whole
  sector, news writer consoles that publish into it under a cooldown and
  delete from it under an access rule, and news reader cartridges that leaf
  through it with a wrap-around index.
 */
module MassMedia {
  import opened Optional

  /** A station record key as the access check compares it: origin station and record id. */
  datatype RecordKey = RecordKey(originStation: nat, id: nat)

  datatype NewsArticle = NewsArticle(
    title: string,
    content: string,
    author: Option<string>,
    shareTime: nat,
    authorStationRecordKeyIds: Option<set<RecordKey>>)

  /** Limits of SharedNewsSystem, in characters. */
  const MaxTitleLength: nat := 25
  const MaxContentLength: nat := 2048

  /** The sector's article list, and whether a SectorNewsComponent exists to hand it out. */
  class SectorNews {
    var articles: seq<NewsArticle>
    var present: bool

    /** OnRoundRestart: a new round starts with no articles. */
    method OnRoundRestart()
      modifies this
      ensures articles == [] && present == old(present)
    {
      articles := [];
    }
  }

  /** A news writer console; times are in one fixed unit, the cooldown too. */
  class NewsWriter {
    var publishEnabled: bool
    var nextPublish: nat
    const publishCooldown: nat
  }

  class NewsReaderCartridge {
    var articleNumber: int
    var notificationOn: bool
  }

  // ---------------------------------------------------------------- reader

  /** The index NewsReaderLeafArticle moves to from `current` by `leafDir` in a list of `count` articles. */
  function LeafIndex(current: int, leafDir: int, count: nat): (i: int)
    ensures current + leafDir >= count ==> i == 0
    ensures current + leafDir < 0 ==> i == count - 1
    ensures 0 <= current + leafDir < count ==> i == current + leafDir
    // whatever the starting index, a non-empty list is never left with an index outside it
    ensures count > 0 ==> 0 <= i < count
  {
    var moved := current + leafDir;
    var wrapped := if moved >= count then 0 else moved;
    if wrapped < 0 then count - 1 else wrapped
  }

  /** Leafing forward and then back returns to the article one started from. */
  lemma LeafNextThenPrev(current: int, count: nat)
    requires 0 <= current < count
    ensures LeafIndex(LeafIndex(current, 1, count), -1, count) == current
    ensures LeafIndex(LeafIndex(current, -1, count), 1, count) == current
  {
  }

  /** The index after leafing forward `k` times. */
  function LeafForward(current: int, k: nat, count: nat): int
  {
    if k == 0 then current else LeafIndex(LeafForward(current, k - 1, count), 1, count)
  }

  /**
    Leafing forward walks through the list in order and wraps once: after `k`
    steps, at most a full round, the reader is `k` articles on, counted
    around the end of the list.
   */
  lemma {:induction false} LeafForwardWalks(current: int, k: nat, count: nat)
    requires 0 <= current < count && k <= count
    ensures LeafForward(current, k, count) == if current + k < count then current + k else current + k - count
  {
    if k > 0 {
      LeafForwardWalks(current, k - 1, count);
    }
  }

  /** A full round of `count` steps forward comes back to the starting article. */
  lemma LeafFullRound(current: int, count: nat)
    requires 0 <= current < count
    ensures LeafForward(current, count, count) == current
  {
    LeafForwardWalks(current, count, count);
  }

  /** NewsReaderLeafArticle. */
  method NewsReaderLeafArticle(news: SectorNews, reader: NewsReaderCartridge, leafDir: int)
    modifies reader
    ensures !news.present ==> unchanged(reader)
    ensures news.present ==> reader.articleNumber == LeafIndex(old(reader.articleNumber), leafDir, |news.articles|)
    ensures reader.notificationOn == old(reader.notificationOn)
  {
    if !news.present {
      return;
    }
    reader.articleNumber := reader.articleNumber + leafDir;
    if reader.articleNumber >= |news.articles| {
      reader.articleNumber := 0;
    }
    if reader.articleNumber < 0 {
      reader.articleNumber := |news.articles| - 1;
    }
  }

  datatype ReaderAction = Next | Prev | NotificationSwitch

  /**
    OnReaderUiMessage: leaf or toggle notifications, then refresh the reader,
    which leafs by zero to bring the index back into the list.
   */
  method OnReaderUiMessage(news: SectorNews, reader: NewsReaderCartridge, action: ReaderAction)
    modifies reader
    ensures reader.notificationOn == (if action == NotificationSwitch then !old(reader.notificationOn) else old(reader.notificationOn))
    ensures !news.present ==> reader.articleNumber == old(reader.articleNumber)
    ensures news.present ==>
      var dir := match action case Next => 1 case Prev => -1 case NotificationSwitch => 0;
      reader.articleNumber == LeafIndex(LeafIndex(old(reader.articleNumber), dir, |news.articles|), 0, |news.articles|)
    ensures news.present && |news.articles| > 0 ==> 0 <= reader.articleNumber < |news.articles|
  {
    match action {
      case Next =>
        NewsReaderLeafArticle(news, reader, 1);
      case Prev =>
        NewsReaderLeafArticle(news, reader, -1);
      case NotificationSwitch =>
        reader.notificationOn := !reader.notificationOn;
    }
    // UpdateReaderUi
    NewsReaderLeafArticle(news, reader, 0);
  }

  /** A second leaf by zero changes nothing: the refresh settles the index at once. */
  lemma LeafByZeroSettles(current: int, count: nat)
    ensures LeafIndex(LeafIndex(current, 0, count), 0, count) == LeafIndex(current, 0, count)
  {
  }

  /**
    The reader refresh raised by a publish or a delete: every reader
    cartridge in `readers`, those that sit in a loader, runs UpdateReaderUi,
    which leafs by zero and so brings its index back into the list.
   */
  method RefreshReaders(news: SectorNews, readers: seq<NewsReaderCartridge>)
    modifies set r | r in readers
    ensures forall r :: r in readers ==> r.notificationOn == old(r.notificationOn)
    ensures !news.present ==> forall r :: r in readers ==> r.articleNumber == old(r.articleNumber)
    ensures news.present ==> forall r :: r in readers ==> r.articleNumber == LeafIndex(old(r.articleNumber), 0, |news.articles|)
    ensures news.present && |news.articles| > 0 ==> forall r :: r in readers ==> 0 <= r.articleNumber < |news.articles|
  {
    var i := 0;
    while i < |readers|
      invariant 0 <= i <= |readers|
      invariant forall r :: r in readers ==> r.notificationOn == old(r.notificationOn)
      invariant forall r :: r in readers ==>
        r.articleNumber == if news.present && r in readers[..i] then LeafIndex(old(r.articleNumber), 0, |news.articles|)
                           else old(r.articleNumber)
    {
      var reader := readers[i];
      LeafByZeroSettles(old(reader.articleNumber), |news.articles|);
      NewsReaderLeafArticle(news, reader, 0);
      assert readers[..i + 1] == readers[..i] + [reader];
      i := i + 1;
    }
    assert readers[..i] == readers;
  }

  // ------------------------------------------------------------------ text

  /** Char.IsWhiteSpace: the Unicode space, line and paragraph separators and the control characters U+0009-U+000D and U+0085. */
  predicate IsWhiteSpace(c: char) {
    || '\t' <= c <= '\r'
    || c == ' '
    || c == '\U{0085}'
    || c == '\U{00A0}'
    || c == '\U{1680}'
    || '\U{2000}' <= c <= '\U{200A}'
    || c == '\U{2028}'
    || c == '\U{2029}'
    || c == '\U{202F}'
    || c == '\U{205F}'
    || c == '\U{3000}'
  }

  /** The first index at or after `i` that does not hold white space, or the length. */
  function SkipWhiteSpace(s: string, i: nat): (j: nat)
    requires i <= |s|
    ensures i <= j <= |s|
    ensures forall k :: i <= k < j ==> IsWhiteSpace(s[k])
    ensures j < |s| ==> !IsWhiteSpace(s[j])
    decreases |s| - i
  {
    if i < |s| && IsWhiteSpace(s[i]) then SkipWhiteSpace(s, i + 1) else i
  }

  /** Walks back from `j` over white space, stopping at `lo`. */
  function BackOverWhiteSpace(s: string, lo: nat, j: nat): (k: nat)
    requires lo <= j <= |s|
    ensures lo <= k <= j
    ensures forall m :: k <= m < j ==> IsWhiteSpace(s[m])
    ensures k > lo ==> !IsWhiteSpace(s[k - 1])
    decreases j
  {
    if j > lo && IsWhiteSpace(s[j - 1]) then BackOverWhiteSpace(s, lo, j - 1) else j
  }

  /**
    String.Trim: the string without white space at either end. What it cuts
    off is white space, and what it keeps is the middle of the string as it
    was, starting and ending with a character that is not white space.
   */
  function Trim(s: string): (r: string)
    ensures |r| <= |s|
    ensures var a := SkipWhiteSpace(s, 0);
      && a + |r| <= |s| && r == s[a..a + |r|]
      && (forall i :: 0 <= i < a ==> IsWhiteSpace(s[i]))
      && (forall i :: a + |r| <= i < |s| ==> IsWhiteSpace(s[i]))
    ensures r != [] ==> !IsWhiteSpace(r[0]) && !IsWhiteSpace(r[|r| - 1])
  {
    var a := SkipWhiteSpace(s, 0);
    var b := BackOverWhiteSpace(s, a, |s|);
    s[a..b]
  }

  /** A string with no white space at either end is its own trim. */
  lemma TrimOfTrimmed(s: string)
    requires s != [] ==> !IsWhiteSpace(s[0]) && !IsWhiteSpace(s[|s| - 1])
    ensures Trim(s) == s
  {
  }

  /** Trimming twice is trimming once. */
  lemma TrimIdempotent(s: string)
    ensures Trim(Trim(s)) == Trim(s)
  {
    TrimOfTrimmed(Trim(s));
  }

  /** The stored form of a title or a content: trimmed, and cut to `max` characters followed by "..." when longer. */
  function StoredText(raw: string, max: nat): (r: string)
    ensures |Trim(raw)| <= max ==> r == Trim(raw)
    ensures |Trim(raw)| > max ==> |r| == max + 3 && r[..max] == Trim(raw)[..max] && r[max..] == "..."
    ensures |r| <= max + 3
  {
    var t := Trim(raw);
    if |t| <= max then t else t[..max] + "..."
  }

  /** Storing a stored text again changes nothing: a published title or content is a fixed point. */
  lemma StoredTextStable(raw: string, max: nat)
    ensures StoredText(StoredText(raw, max), max) == StoredText(raw, max)
  {
    var stored := StoredText(raw, max);
    var t := Trim(raw);
    if |t| <= max {
      TrimIdempotent(raw);
    } else {
      assert stored == t[..max] + "...";
      assert stored[|stored| - 1] == '.';
      assert stored[0] == (if max > 0 then t[0] else '.');
      TrimOfTrimmed(stored);
      assert stored[..max] == t[..max];
    }
  }

  // ---------------------------------------------------------------- delete

  /**
    CheckDeleteAccess. `deviceAllows` is whether the console's access reader
    lets the user through; `userKeys` are the user's station record keys,
    None when none can be found.
   */
  function CheckDeleteAccess(article: NewsArticle, deviceAllows: bool, userKeys: Option<set<RecordKey>>): (allowed: bool)
    ensures allowed <==>
      || deviceAllows
      || article.authorStationRecordKeyIds.None?
      || article.authorStationRecordKeyIds.value == {}
      || (userKeys.Some? && userKeys.value * article.authorStationRecordKeyIds.value != {})
  {
    if deviceAllows then true
    else if article.authorStationRecordKeyIds.None? || |article.authorStationRecordKeyIds.value| == 0 then true
    else userKeys.Some? && userKeys.value * article.authorStationRecordKeyIds.value != {}
  }

  /** A user holding one of the author's record keys may always delete the article. */
  lemma AuthorMayDelete(article: NewsArticle, deviceAllows: bool, userKeys: set<RecordKey>, key: RecordKey)
    requires article.authorStationRecordKeyIds.Some?
    requires key in userKeys && key in article.authorStationRecordKeyIds.value
    ensures CheckDeleteAccess(article, deviceAllows, Some(userKeys))
  {
    assert key in userKeys * article.authorStationRecordKeyIds.value;
  }

  /** Without the console's access, a user sharing no key with a keyed article is refused. */
  lemma StrangerRefused(article: NewsArticle, userKeys: Option<set<RecordKey>>)
    requires article.authorStationRecordKeyIds.Some? && article.authorStationRecordKeyIds.value != {}
    requires userKeys.Some? ==> forall k :: k in userKeys.value ==> k !in article.authorStationRecordKeyIds.value
    ensures !CheckDeleteAccess(article, false, userKeys)
  {
  }

  /** List.RemoveAt. */
  function RemoveAt<T>(s: seq<T>, index: nat): (r: seq<T>)
    requires index < |s|
    ensures |r| == |s| - 1
    ensures forall j :: 0 <= j < index ==> r[j] == s[j]
    ensures forall j :: index <= j < |r| ==> r[j] == s[j + 1]
  {
    s[..index] + s[index + 1..]
  }

  /** Removing an entry loses exactly that entry and nothing else. */
  lemma RemoveAtLosesOnlyThatEntry<T>(s: seq<T>, index: nat)
    requires index < |s|
    ensures multiset(RemoveAt(s, index)) + multiset{s[index]} == multiset(s)
  {
    assert s == s[..index] + [s[index]] + s[index + 1..];
  }

  datatype DeleteOutcome =
    | NoArticles      // no SectorNewsComponent exists
    | OutOfRange      // the index is at or past the end of the list
    | IndexFault      // a negative index: the list indexer throws before anything changes
    | Deleted
    | AccessDenied

  /**
    OnWriteUiDeleteMessage. Once the index is checked, whether or not access
    is granted, every reader in `readers` is refreshed.
   */
  method OnWriteUiDeleteMessage(news: SectorNews, articleNum: int, deviceAllows: bool, userKeys: Option<set<RecordKey>>,
                                readers: seq<NewsReaderCartridge>)
    returns (outcome: DeleteOutcome)
    modifies news, set r | r in readers
    ensures news.present == old(news.present)
    ensures forall r :: r in readers ==> r.notificationOn == old(r.notificationOn)
    ensures outcome in {NoArticles, OutOfRange, IndexFault} ==> forall r :: r in readers ==> r.articleNumber == old(r.articleNumber)
    ensures outcome in {Deleted, AccessDenied} ==>
      forall r :: r in readers ==> r.articleNumber == LeafIndex(old(r.articleNumber), 0, |news.articles|)
    // no refreshed reader is left pointing outside a non-empty list
    ensures outcome in {Deleted, AccessDenied} && |news.articles| > 0 ==>
      forall r :: r in readers ==> 0 <= r.articleNumber < |news.articles|
    ensures outcome != Deleted ==> news.articles == old(news.articles)
    ensures !news.present <==> outcome == NoArticles
    ensures news.present && articleNum >= |old(news.articles)| ==> outcome == OutOfRange
    ensures news.present && articleNum < 0 ==> outcome == IndexFault
    ensures news.present && 0 <= articleNum < |old(news.articles)| ==>
      var article := old(news.articles)[articleNum];
      if CheckDeleteAccess(article, deviceAllows, userKeys)
      then outcome == Deleted && news.articles == RemoveAt(old(news.articles), articleNum)
      else outcome == AccessDenied
  {
    if !news.present {
      return NoArticles;
    }
    if articleNum >= |news.articles| {
      return OutOfRange;
    }
    if articleNum < 0 {
      return IndexFault;
    }
    var article := news.articles[articleNum];
    if CheckDeleteAccess(article, deviceAllows, userKeys) {
      news.articles := RemoveAt(news.articles, articleNum);
      outcome := Deleted;
    } else {
      outcome := AccessDenied;
    }
    // NewsArticleDeletedEvent
    RefreshReaders(news, readers);
  }

  // --------------------------------------------------------------- publish

  datatype PublishOutcome =
    | PublishDisabled   // the writer's cooldown has not run out
    | NoArticleList     // no SectorNewsComponent exists
    | NoRecordKeys      // the actor's station record keys cannot be found
    | Published(article: NewsArticle)

  /** The article a publish creates. Record keys of the author are never attached. */
  function NewArticle(title: string, content: string, authorName: Option<string>, roundDuration: nat): (a: NewsArticle)
    ensures |a.title| <= MaxTitleLength + 3 && |a.content| <= MaxContentLength + 3
    ensures a.author == authorName && a.shareTime == roundDuration
    ensures a.authorStationRecordKeyIds.None?
  {
    NewsArticle(StoredText(title, MaxTitleLength), StoredText(content, MaxContentLength), authorName, roundDuration, None)
  }

  /**
    OnWriteUiPublishMessage at time `now`. `actorHasRecordKeys` is whether the
    actor's station record keys can be found, `authorName` the full name on
    the actor's ID card, if any, and `roundDuration` the round's age. A
    published article refreshes every reader in `readers`.
   */
  method OnWriteUiPublishMessage(news: SectorNews, writer: NewsWriter, now: nat, title: string, content: string,
                                 actorHasRecordKeys: bool, authorName: Option<string>, roundDuration: nat,
                                 readers: seq<NewsReaderCartridge>)
    returns (outcome: PublishOutcome)
    modifies news, writer, set r | r in readers
    ensures news.present == old(news.present)
    ensures forall r :: r in readers ==> r.notificationOn == old(r.notificationOn)
    ensures !outcome.Published? ==> forall r :: r in readers ==> r.articleNumber == old(r.articleNumber)
    ensures outcome.Published? ==>
      && (forall r :: r in readers ==> r.articleNumber == LeafIndex(old(r.articleNumber), 0, |news.articles|))
      && (forall r :: r in readers ==> 0 <= r.articleNumber < |news.articles|)
    ensures !old(writer.publishEnabled) ==> outcome == PublishDisabled && unchanged(writer) && news.articles == old(news.articles)
    // the cooldown starts before any later check can abort
    ensures old(writer.publishEnabled) ==> !writer.publishEnabled && writer.nextPublish == now + writer.publishCooldown
    ensures old(writer.publishEnabled) && !news.present ==> outcome == NoArticleList && news.articles == old(news.articles)
    ensures old(writer.publishEnabled) && news.present && !actorHasRecordKeys ==>
      outcome == NoRecordKeys && news.articles == old(news.articles)
    ensures old(writer.publishEnabled) && news.present && actorHasRecordKeys ==>
      var article := NewArticle(title, content, authorName, roundDuration);
      outcome == Published(article) && news.articles == old(news.articles) + [article]
  {
    if !writer.publishEnabled {
      return PublishDisabled;
    }
    writer.publishEnabled := false;
    writer.nextPublish := now + writer.publishCooldown;
    if !news.present {
      return NoArticleList;
    }
    if !actorHasRecordKeys {
      return NoRecordKeys;
    }
    var article := NewArticle(title, content, authorName, roundDuration);
    news.articles := news.articles + [article];
    outcome := Published(article);
    // NewsArticlePublishedEvent
    RefreshReaders(news, readers);
  }

  /** Every article a publish adds can be deleted by anyone, since none carries its author's record keys. */
  lemma PublishedArticleDeletableByAnyone(title: string, content: string, authorName: Option<string>, roundDuration: nat,
                                          deviceAllows: bool, userKeys: Option<set<RecordKey>>)
    ensures CheckDeleteAccess(NewArticle(title, content, authorName, roundDuration), deviceAllows, userKeys)
  {
  }

  // ---------------------------------------------------------------- update

  /** Whether a writer may publish after an Update at `curTime`. */
  function EnabledAfterUpdate(enabled: bool, nextPublish: nat, curTime: nat): (r: bool)
    ensures r <==> enabled || nextPublish <= curTime
  {
    if enabled || curTime < nextPublish then enabled else true
  }

  /** Update: every writer whose cooldown has run out may publish again; nothing else changes. */
  method Update(writers: seq<NewsWriter>, curTime: nat)
    modifies set w | w in writers
    ensures forall w :: w in writers ==> w.publishEnabled == EnabledAfterUpdate(old(w.publishEnabled), old(w.nextPublish), curTime)
    ensures forall w :: w in writers ==> w.nextPublish == old(w.nextPublish)
  {
    var i := 0;
    while i < |writers|
      invariant 0 <= i <= |writers|
      invariant forall w :: w in writers ==> w.nextPublish == old(w.nextPublish)
      invariant forall w :: w in writers ==>
        w.publishEnabled == (old(w.publishEnabled) || (w in writers[..i] && w.nextPublish <= curTime))
    {
      var comp := writers[i];
      if comp.publishEnabled || curTime < comp.nextPublish {
        i := i + 1;
        continue;
      }
      comp.publishEnabled := true;
      i := i + 1;
    }
  }
}
