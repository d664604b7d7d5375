/** The two services that page by cursor: the activity feed, ordered by (score, createdAt) downwards,
    and the messages of a chat room or thread, ordered by createdAt in either direction. */
module Feeds {
  import opened Sequences
  import opened CursorPaging

  datatype FeedItem =
    FeedItem(id: nat, userId: nat, activityType: string, score: real, createdAt: int, read: bool)

  datatype FeedOptions = FeedOptions(limit: nat, cursor: Option<Key>, includeRead: bool, types: seq<string>)

  datatype FeedError = FeedItemNotFound

  function FeedListing(userId: nat, options: FeedOptions): Listing<FeedItem, nat> {
    Listing(
      (f: FeedItem) => f.id,
      (f: FeedItem) => Key(f.score, f.createdAt),
      (f: FeedItem) =>
        && f.userId == userId
        && (options.includeRead || !f.read)
        && (options.types == [] || f.activityType in options.types))
  }

  /** Items of this user, of the types asked for, unread unless read ones are wanted, that come after the cursor. */
  predicate InFeed(f: FeedItem, userId: nat, options: FeedOptions) {
    && f.userId == userId
    && (f.read ==> options.includeRead)
    && (options.types != [] ==> f.activityType in options.types)
    && (options.cursor.Some? ==>
          f.score < options.cursor.value.score ||
            (f.score == options.cursor.value.score && f.createdAt < options.cursor.value.time))
  }

  /** Exactly those items, the best first and the newest first among equals. */
  ghost predicate ListsFeed(all: seq<FeedItem>, items: seq<FeedItem>, userId: nat, options: FeedOptions) {
    && (forall f :: f in all <==> f in items && InFeed(f, userId, options))
    && DistinctBy(all, (f: FeedItem) => f.id)
    && forall i, j :: 0 <= i < j < |all| ==>
         all[i].score > all[j].score || (all[i].score == all[j].score && all[i].createdAt >= all[j].createdAt)
  }

  /** The first `limit` of them, whether there are more, and from where. */
  ghost predicate ShowsFeed(page: Page<FeedItem>, all: seq<FeedItem>, limit: nat) {
    && |page.items| == (if |all| <= limit then |all| else limit)
    && (forall i :: 0 <= i < |page.items| ==> page.items[i] == all[i])
    && (page.hasMore <==> |all| > limit)
    && (page.nextCursor.Some? <==> |all| > limit > 0)
    && (page.nextCursor.Some? ==>
          page.nextCursor.value.score == all[limit - 1].score && page.nextCursor.value.time == all[limit - 1].createdAt)
  }

  lemma FeedCut(all: seq<FeedItem>, userId: nat, options: FeedOptions)
    ensures ShowsFeed(FeedListing(userId, options).Cut(all, options.limit), all, options.limit)
  {
  }

  lemma FeedMeans(items: seq<FeedItem>, userId: nat, options: FeedOptions)
    requires DistinctBy(items, (f: FeedItem) => f.id)
    ensures ListsFeed(FeedListing(userId, options).Rows(items, options.cursor), items, userId, options)
  {
    var listing := FeedListing(userId, options);
    var byId := (f: FeedItem) => f.id;
    assert forall i, j :: 0 <= i < j < |items| ==> byId(items[i]) != byId(items[j]);
    listing.PageOfIsPage(items, options.cursor, options.limit);
    var all := listing.Rows(items, options.cursor);
    forall i, j | 0 <= i < j < |all|
      ensures byId(all[i]) != byId(all[j])
      ensures all[i].score > all[j].score || (all[i].score == all[j].score && all[i].createdAt >= all[j].createdAt)
    {
      assert !Before(listing.key(all[j]), listing.key(all[i]));
      assert listing.id(all[i]) != listing.id(all[j]);
    }
  }

  class FeedService {
    var feedItems: seq<FeedItem>

    method GenerateFeed(userId: nat, options: FeedOptions) returns (page: Page<FeedItem>)
      ensures page == FeedListing(userId, options).PageOf(feedItems, options.cursor, options.limit)
      ensures FeedListing(userId, options).IsTable(feedItems) ==>
                FeedListing(userId, options).IsPage(feedItems, options.cursor, options.limit, page)
      ensures DistinctBy(feedItems, (f: FeedItem) => f.id) ==>
                exists all :: ListsFeed(all, feedItems, userId, options) && ShowsFeed(page, all, options.limit)
    {
      ghost var listing := FeedListing(userId, options);
      if DistinctBy(feedItems, (f: FeedItem) => f.id) {
        FeedMeans(feedItems, userId, options);
        FeedCut(listing.Rows(feedItems, options.cursor), userId, options);
      }
      var rows := RunQuery(userId, options);
      if listing.IsTable(feedItems) {
        listing.PageOfIsPage(feedItems, options.cursor, options.limit);
      }
      page := CutPage(rows, options.limit);
      CutExtensional(listing, rows, options.limit, page);
    }

    /** Filters under conditionals, then the two sort keys. */
    method RunQuery(userId: nat, options: FeedOptions) returns (rows: seq<FeedItem>)
      ensures rows == FeedListing(userId, options).Rows(feedItems, options.cursor)
    {
      rows := Conditions(userId, options);
      var order := (a: FeedItem, b: FeedItem) =>
        a.score > b.score || (a.score == b.score && a.createdAt > b.createdAt);
      SortExtensional(rows, order, FeedListing(userId, options).RowOrder());
      rows := SortBy(rows, order);
    }

    method Conditions(userId: nat, options: FeedOptions) returns (rows: seq<FeedItem>)
      ensures var listing := FeedListing(userId, options);
              rows == Filter(Filter(feedItems, listing.After(options.cursor)), listing.matches)
    {
      var cursor := options.cursor;
      ghost var kept: FeedItem -> bool := (f: FeedItem) => f.userId == userId;
      rows := Filter(feedItems, (f: FeedItem) => f.userId == userId);
      FilterExtensional(feedItems, kept, (f: FeedItem) => f.userId == userId);
      rows, kept := AndWhere(feedItems, rows, kept, cursor.Some?,
        (f: FeedItem) =>
          && cursor.Some?
          && (f.score < cursor.value.score || (f.score == cursor.value.score && f.createdAt < cursor.value.time)));
      rows, kept := AndWhere(feedItems, rows, kept, !options.includeRead, (f: FeedItem) => !f.read);
      rows, kept := AndWhere(feedItems, rows, kept, |options.types| > 0,
                             (f: FeedItem) => f.activityType in options.types);
      ConditionsMeanListing(feedItems, userId, options, kept);
    }

    static lemma ConditionsMeanListing(items: seq<FeedItem>, userId: nat, options: FeedOptions, kept: FeedItem -> bool)
      requires forall f :: kept(f) <==>
                 && f.userId == userId
                 && (options.cursor.Some? ==> Before(options.cursor.value, Key(f.score, f.createdAt)))
                 && (!options.includeRead ==> !f.read)
                 && (|options.types| > 0 ==> f.activityType in options.types)
      ensures var listing := FeedListing(userId, options);
              Filter(items, kept) == Filter(Filter(items, listing.After(options.cursor)), listing.matches)
    {
      var listing := FeedListing(userId, options);
      FilterTwice(items, listing.After(options.cursor), listing.matches);
      FilterExtensional(items, kept, x => listing.After(options.cursor)(x) && listing.matches(x));
    }

    /** Drops the extra row and builds the next cursor. */
    method CutPage(found: seq<FeedItem>, limit: nat) returns (page: Page<FeedItem>)
      ensures page.hasMore <==> |found| > limit
      ensures page.items == Take(found, limit)
      ensures page.nextCursor == if page.hasMore && limit > 0
                                 then Some(Key(found[limit - 1].score, found[limit - 1].createdAt)) else None
    {
      var rows := Take(found, limit + 1);
      var hasMore := |rows| > limit;
      if hasMore {
        rows := rows[..|rows| - 1];
      }
      var nextCursor := None;
      if hasMore && |rows| > 0 {
        var lastItem := rows[|rows| - 1];
        nextCursor := Some(Key(lastItem.score, lastItem.createdAt));
      }
      page := Page(rows, nextCursor, hasMore);
    }

    lemma CutExtensional(listing: Listing<FeedItem, nat>, found: seq<FeedItem>, limit: nat, page: Page<FeedItem>)
      requires forall f: FeedItem :: listing.key(f) == Key(f.score, f.createdAt)
      requires page.hasMore <==> |found| > limit
      requires page.items == Take(found, limit)
      requires page.nextCursor == if page.hasMore && limit > 0
                                  then Some(Key(found[limit - 1].score, found[limit - 1].createdAt)) else None
      ensures page == listing.Cut(found, limit)
    {
    }

    /** Marking an item read touches one flag of one row; the keys the paging relies on stay. */
    method MarkFeedItemAsRead(userId: nat, feedItemId: nat) returns (r: Result<(), FeedError>)
      requires DistinctBy(feedItems, (f: FeedItem) => f.id)
      modifies this
      ensures r.Ok? <==> exists f :: f in old(feedItems) && f.id == feedItemId && f.userId == userId
      ensures |feedItems| == |old(feedItems)|
      ensures forall i :: 0 <= i < |feedItems| ==>
                feedItems[i] == if r.Ok? && old(feedItems)[i].id == feedItemId
                                then old(feedItems)[i].(read := true) else old(feedItems)[i]
    {
      for i := 0 to |feedItems|
        invariant feedItems == old(feedItems)
        invariant forall j :: 0 <= j < i ==> !(feedItems[j].id == feedItemId && feedItems[j].userId == userId)
      {
        var feedItem := feedItems[i];
        if feedItem.id == feedItemId && feedItem.userId == userId {
          ghost var byId := (f: FeedItem) => f.id;
          assert forall j :: 0 <= j < |feedItems| && j != i ==> byId(feedItems[j]) != byId(feedItems[i]);
          feedItems := feedItems[i := feedItem.(read := true)];
          return Ok(());
        }
      }
      return Err(FeedItemNotFound);
    }
  }

  /** Marking read and inserting new items between two fetches are the kind of change a walk tolerates. */
  lemma FeedChangesKeepKeys(userId: nat, options: FeedOptions, before: seq<FeedItem>, after: seq<FeedItem>)
    requires |before| <= |after| && DistinctBy(after, (f: FeedItem) => f.id)
    requires forall i :: 0 <= i < |before| ==> after[i] == before[i].(read := after[i].read)
    ensures FeedListing(userId, options).KeysFixed(before, after)
  {
    var byId := (f: FeedItem) => f.id;
    var listing := FeedListing(userId, options);
    forall i, j | 0 <= i < j < |after|
      ensures listing.id(after[i]) != listing.id(after[j])
    {
      assert byId(after[i]) != byId(after[j]);
    }
    forall i | 0 <= i < |before|
      ensures listing.id(before[i]) == listing.id(after[i]) && listing.key(before[i]) == listing.key(after[i])
    {
      assert after[i] == before[i].(read := after[i].read);
    }
    listing.KeysFixedByPosition(before, after);
  }

  /** `if (given) query.andWhere(condition)`; `now` is what the query selects afterwards. */
  method AndWhere<T(!new)>(table: seq<T>, rows: seq<T>, ghost kept: T -> bool, given: bool, condition: T -> bool)
    returns (narrowed: seq<T>, ghost now: T -> bool)
    requires rows == Filter(table, kept)
    ensures forall x :: now(x) <==> kept(x) && (given ==> condition(x))
    ensures narrowed == Filter(table, now)
  {
    narrowed, now := rows, kept;
    if given {
      narrowed, now := Filter(rows, condition), x => kept(x) && condition(x);
      FilterTwice(table, kept, condition);
    }
  }

  function Take<T>(s: seq<T>, n: nat): (r: seq<T>) {
    if |s| <= n then s else s[..n]
  }

  // ---------------------------------------------------------------- messages

  datatype Message = Message(
    id: string, chatRoomId: string, senderId: string, messageType: string, content: string,
    replyToId: string, createdAt: int, deleted: bool)

  datatype Direction = ASC | DESC

  /** Absent options are empty strings, which the source treats alike. */
  datatype MessageQuery = MessageQuery(
    chatRoomId: string, limit: nat, cursor: Option<int>, senderId: string, messageType: string,
    search: string, includeDeleted: bool, orderDirection: Direction)

  function TimeKey(direction: Direction, createdAt: int): Key {
    Key(if direction == DESC then createdAt as real else -(createdAt as real), 0)
  }

  function TimeCursor(direction: Direction, cursor: Option<int>): Option<Key> {
    if cursor.Some? then Some(TimeKey(direction, cursor.value)) else None
  }

  /** `contains` stands for the database's ILIKE. */
  function RoomListing(query: MessageQuery, contains: (string, string) -> bool): Listing<Message, string> {
    Listing(
      (m: Message) => m.id,
      (m: Message) => TimeKey(query.orderDirection, m.createdAt),
      (m: Message) =>
        && m.chatRoomId == query.chatRoomId
        && (query.includeDeleted || !m.deleted)
        && (query.senderId == "" || m.senderId == query.senderId)
        && (query.messageType == "" || m.messageType == query.messageType)
        && (query.search == "" || contains(m.content, query.search)))
  }

  function ThreadListing(parentMessageId: string, direction: Direction): Listing<Message, string> {
    Listing(
      (m: Message) => m.id,
      (m: Message) => TimeKey(direction, m.createdAt),
      (m: Message) => m.replyToId == parentMessageId && !m.deleted)
  }

  /** The messages of a room that the query asks for. */
  predicate InRoom(m: Message, query: MessageQuery, contains: (string, string) -> bool) {
    && m.chatRoomId == query.chatRoomId
    && (m.deleted ==> query.includeDeleted)
    && (query.senderId != "" ==> m.senderId == query.senderId)
    && (query.messageType != "" ==> m.messageType == query.messageType)
    && (query.search != "" ==> contains(m.content, query.search))
  }

  predicate IsLiveReply(m: Message, parentMessageId: string) {
    m.replyToId == parentMessageId && !m.deleted
  }

  /** Exactly the wanted messages on the far side of the cursor, in the direction asked for. */
  ghost predicate ListsMessages(all: seq<Message>, messages: seq<Message>, wanted: Message -> bool,
                                direction: Direction, cursor: Option<int>) {
    && (forall m :: m in all <==>
          m in messages && wanted(m)
          && (cursor.Some? ==> if direction == DESC then m.createdAt < cursor.value else m.createdAt > cursor.value))
    && DistinctBy(all, (m: Message) => m.id)
    && forall i, j :: 0 <= i < j < |all| ==>
         if direction == DESC then all[i].createdAt >= all[j].createdAt else all[i].createdAt <= all[j].createdAt
  }

  /** The first `limit` of them, and 1 if there are more. */
  ghost predicate ShowsMessages(items: seq<Message>, hasMore: nat, all: seq<Message>, limit: nat) {
    && |items| == (if |all| <= limit then |all| else limit)
    && (forall i :: 0 <= i < |items| ==> items[i] == all[i])
    && hasMore == if |all| > limit then 1 else 0
  }

  /** The page of a listing of messages. */
  ghost predicate IsMessagePage(items: seq<Message>, hasMore: nat, messages: seq<Message>, wanted: Message -> bool,
                                direction: Direction, cursor: Option<int>, limit: nat) {
    exists all :: ListsMessages(all, messages, wanted, direction, cursor) && ShowsMessages(items, hasMore, all, limit)
  }

  lemma MessagesMean(listing: Listing<Message, string>, messages: seq<Message>, wanted: Message -> bool,
                     direction: Direction, cursor: Option<int>, limit: nat)
    requires DistinctBy(messages, (m: Message) => m.id)
    requires forall m: Message :: listing.id(m) == m.id && listing.key(m) == TimeKey(direction, m.createdAt)
    requires forall m: Message :: listing.matches(m) <==> wanted(m)
    ensures var page := listing.PageOf(messages, TimeCursor(direction, cursor), limit);
            IsMessagePage(page.items, if page.hasMore then 1 else 0, messages, wanted, direction, cursor, limit)
  {
    var byId := (m: Message) => m.id;
    assert forall i, j :: 0 <= i < j < |messages| ==> byId(messages[i]) != byId(messages[j]);
    listing.PageOfIsPage(messages, TimeCursor(direction, cursor), limit);
    var all := listing.Rows(messages, TimeCursor(direction, cursor));
    forall i, j | 0 <= i < j < |all|
      ensures byId(all[i]) != byId(all[j])
      ensures if direction == DESC then all[i].createdAt >= all[j].createdAt else all[i].createdAt <= all[j].createdAt
    {
      assert !Before(listing.key(all[j]), listing.key(all[i]));
      assert listing.id(all[i]) != listing.id(all[j]);
    }
    assert ListsMessages(all, messages, wanted, direction, cursor);
  }

  lemma RoomMeans(messages: seq<Message>, query: MessageQuery, contains: (string, string) -> bool)
    requires DistinctBy(messages, (m: Message) => m.id)
    ensures var page := RoomListing(query, contains).PageOf(messages, TimeCursor(query.orderDirection, query.cursor),
                                                            query.limit);
            IsMessagePage(page.items, if page.hasMore then 1 else 0, messages,
                          (m: Message) => InRoom(m, query, contains), query.orderDirection, query.cursor, query.limit)
  {
    MessagesMean(RoomListing(query, contains), messages, (m: Message) => InRoom(m, query, contains),
                 query.orderDirection, query.cursor, query.limit);
  }

  lemma ThreadMeans(messages: seq<Message>, parentMessageId: string, direction: Direction, cursor: Option<int>,
                    limit: nat)
    requires DistinctBy(messages, (m: Message) => m.id)
    ensures var listing := ThreadListing(parentMessageId, direction);
            var page := listing.PageOf(messages, TimeCursor(direction, cursor), limit);
            IsMessagePage(page.items, if page.hasMore then 1 else 0, messages,
                          (m: Message) => IsLiveReply(m, parentMessageId), direction, cursor, limit)
  {
    MessagesMean(ThreadListing(parentMessageId, direction), messages,
                 (m: Message) => IsLiveReply(m, parentMessageId), direction, cursor, limit);
  }

  class MessageRepository {
    var messages: seq<Message>

    /** The shared tail of both queries: cursor, order, one row too many, and whether there are more. */
    method Fetch(rows: seq<Message>, ghost listing: Listing<Message, string>, direction: Direction,
                 cursor: Option<int>, limit: nat) returns (items: seq<Message>, hasMore: nat)
      requires rows == Filter(messages, listing.matches)
      requires forall m: Message :: listing.key(m) == TimeKey(direction, m.createdAt)
      ensures var page := listing.PageOf(messages, TimeCursor(direction, cursor), limit);
              items == page.items && hasMore == if page.hasMore then 1 else 0
    {
      var found := RunQuery(rows, listing, direction, cursor);
      items := Take(found, limit + 1);
      hasMore := 0;
      if |items| > limit {
        items := items[..|items| - 1];
        hasMore := 1;
      }
    }

    method RunQuery(rows: seq<Message>, ghost listing: Listing<Message, string>, direction: Direction,
                    cursor: Option<int>)
      returns (found: seq<Message>)
      requires rows == Filter(messages, listing.matches)
      requires forall m: Message :: listing.key(m) == TimeKey(direction, m.createdAt)
      ensures found == listing.Rows(messages, TimeCursor(direction, cursor))
    {
      ghost var position := TimeCursor(direction, cursor);
      found := AfterCursor(rows, listing, direction, cursor);
      listing.RowsFromMatches(messages, position);
      var order := (a: Message, b: Message) =>
        if direction == DESC then a.createdAt > b.createdAt else a.createdAt < b.createdAt;
      SortExtensional(found, order, listing.RowOrder());
      found := SortBy(found, order);
    }

    method AfterCursor(rows: seq<Message>, ghost listing: Listing<Message, string>, direction: Direction,
                       cursor: Option<int>)
      returns (found: seq<Message>)
      requires forall m: Message :: listing.key(m) == TimeKey(direction, m.createdAt)
      ensures found == Filter(rows, listing.After(TimeCursor(direction, cursor)))
    {
      ghost var after := listing.After(TimeCursor(direction, cursor));
      if cursor.Some? {
        if direction == DESC {
          found := Filter(rows, (m: Message) => m.createdAt < cursor.value);
          FilterExtensional(rows, (m: Message) => m.createdAt < cursor.value, after);
        } else {
          found := Filter(rows, (m: Message) => m.createdAt > cursor.value);
          FilterExtensional(rows, (m: Message) => m.createdAt > cursor.value, after);
        }
      } else {
        found := rows;
        FilterAll(rows, after);
      }
    }

    method FindMessages(query: MessageQuery, contains: (string, string) -> bool)
      returns (items: seq<Message>, hasMore: nat)
      ensures var cursor := TimeCursor(query.orderDirection, query.cursor);
              var page := RoomListing(query, contains).PageOf(messages, cursor, query.limit);
              items == page.items && hasMore == if page.hasMore then 1 else 0
      ensures DistinctBy(messages, (m: Message) => m.id) ==>
                IsMessagePage(items, hasMore, messages, (m: Message) => InRoom(m, query, contains),
                              query.orderDirection, query.cursor, query.limit)
    {
      if DistinctBy(messages, (m: Message) => m.id) {
        RoomMeans(messages, query, contains);
      }
      ghost var kept: Message -> bool := (m: Message) => m.chatRoomId == query.chatRoomId;
      var rows := Filter(messages, (m: Message) => m.chatRoomId == query.chatRoomId);
      FilterExtensional(messages, kept, (m: Message) => m.chatRoomId == query.chatRoomId);
      rows, kept := AndWhere(messages, rows, kept, !query.includeDeleted, (m: Message) => !m.deleted);
      rows, kept := AndWhere(messages, rows, kept, query.senderId != "", (m: Message) => m.senderId == query.senderId);
      rows, kept := AndWhere(messages, rows, kept, query.messageType != "",
                             (m: Message) => m.messageType == query.messageType);
      rows, kept := AndWhere(messages, rows, kept, query.search != "",
                             (m: Message) => contains(m.content, query.search));
      FilterExtensional(messages, kept, RoomListing(query, contains).matches);
      items, hasMore := Fetch(rows, RoomListing(query, contains), query.orderDirection, query.cursor, query.limit);
    }

    method FindThreadMessages(parentMessageId: string, direction: Direction, cursor: Option<int>, limit: nat)
      returns (items: seq<Message>, hasMore: nat)
      ensures var listing := ThreadListing(parentMessageId, direction);
              var page := listing.PageOf(messages, TimeCursor(direction, cursor), limit);
              items == page.items && hasMore == if page.hasMore then 1 else 0
      ensures DistinctBy(messages, (m: Message) => m.id) ==>
                IsMessagePage(items, hasMore, messages, (m: Message) => IsLiveReply(m, parentMessageId), direction,
                              cursor, limit)
    {
      if DistinctBy(messages, (m: Message) => m.id) {
        ThreadMeans(messages, parentMessageId, direction, cursor, limit);
      }
      var matches := (m: Message) => m.replyToId == parentMessageId && !m.deleted;
      var rows := Filter(messages, matches);
      FilterExtensional(messages, matches, ThreadListing(parentMessageId, direction).matches);
      items, hasMore := Fetch(rows, ThreadListing(parentMessageId, direction), direction, cursor, limit);
    }
  }
}
