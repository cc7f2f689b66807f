/** The recent-post filter of `get_recent_posts` (overload_spotify_sync.py:52-76).

    Times are whole seconds since the epoch. The source compares local `datetime`s built from the
    same clock, so "created at least one day before now" is `created < now - Day`. */
module Posts {
  /** One Reddit submission, as the listing reports it. */
  datatype Submission = Submission(title: string, url: string, score: int, id: string, created: int)

  /** The dictionary the filter keeps for each accepted submission. */
  datatype Post = Post(title: string, url: string, score: int, id: string, created: int)

  /** `subreddit.new(limit=100)`. */
  const ListingLimit: nat := 100

  /** `timedelta(days=1)`, in seconds. */
  const Day: int := 86400

  function ToPost(s: Submission): Post {
    Post(s.title, s.url, s.score, s.id, s.created)
  }

  /** The two tests a submission must pass: not older than one day, and enough upvotes. */
  predicate Accepted(s: Submission, now: int, minUpvotes: int) {
    s.created >= now - Day && s.score >= minUpvotes
  }

  /** The first `ListingLimit` entries of the newest-first listing. */
  function Window(listing: seq<Submission>): (w: seq<Submission>)
    ensures |w| <= ListingLimit && |w| <= |listing|
    ensures w == listing[..|w|]
    ensures |w| == ListingLimit || w == listing
  {
    if |listing| <= ListingLimit then listing else listing[..ListingLimit]
  }

  /** The accepted submissions of `subs`, in listing order. */
  function FilterAccepted(subs: seq<Submission>, now: int, minUpvotes: int): (r: seq<Post>)
    ensures |r| <= |subs|
    ensures forall p | p in r :: exists s | s in subs :: Accepted(s, now, minUpvotes) && p == ToPost(s)
  {
    if subs == [] then []
    else
      var rest := FilterAccepted(subs[1..], now, minUpvotes);
      assert forall s | s in subs[1..] :: s in subs;
      if Accepted(subs[0], now, minUpvotes) then [ToPost(subs[0])] + rest else rest
  }

  /** `get_recent_posts`, with the clock reading `now` and the configured threshold as inputs. */
  function RecentPosts(listing: seq<Submission>, now: int, minUpvotes: int): (r: seq<Post>)
    ensures |r| <= ListingLimit
  {
    FilterAccepted(Window(listing), now, minUpvotes)
  }

  /** Filtering distributes over concatenation: the result keeps source order. */
  lemma {:induction false} FilterAcceptedAppend(a: seq<Submission>, b: seq<Submission>, now: int, minUpvotes: int)
    ensures FilterAccepted(a + b, now, minUpvotes) == FilterAccepted(a, now, minUpvotes) + FilterAccepted(b, now, minUpvotes)
  {
    if a != [] {
      assert (a + b)[1..] == a[1..] + b;
      FilterAcceptedAppend(a[1..], b, now, minUpvotes);
    } else {
      assert a + b == b;
    }
  }

  /** Every accepted submission of the window is kept. */
  lemma {:induction false} FilterAcceptedComplete(subs: seq<Submission>, now: int, minUpvotes: int, i: nat)
    requires i < |subs| && Accepted(subs[i], now, minUpvotes)
    ensures ToPost(subs[i]) in FilterAccepted(subs, now, minUpvotes)
  {
    if i > 0 {
      FilterAcceptedComplete(subs[1..], now, minUpvotes, i - 1);
    }
  }

  /** The filter keeps exactly the submissions among the first hundred that are at most a day old
      and have at least `minUpvotes` points. */
  lemma RecentPostsExactly(listing: seq<Submission>, now: int, minUpvotes: int, s: Submission)
    requires s in Window(listing)
    ensures ToPost(s) in RecentPosts(listing, now, minUpvotes) <==> Accepted(s, now, minUpvotes)
  {
    var w := Window(listing);
    if Accepted(s, now, minUpvotes) {
      var i :| 0 <= i < |w| && w[i] == s;
      FilterAcceptedComplete(w, now, minUpvotes, i);
    }
  }

  /** Submissions past the hundredth are never looked at. */
  lemma RecentPostsIgnoresTail(listing: seq<Submission>, more: seq<Submission>, now: int, minUpvotes: int)
    requires |listing| >= ListingLimit
    ensures RecentPosts(listing + more, now, minUpvotes) == RecentPosts(listing, now, minUpvotes)
  {
    assert Window(listing + more) == Window(listing);
  }

  /** A submission created exactly one day before `now` is still recent; one second earlier is not. */
  lemma DayBoundary(s: Submission, now: int, minUpvotes: int)
    requires s.score >= minUpvotes
    ensures s.created == now - Day ==> Accepted(s, now, minUpvotes)
    ensures s.created == now - Day - 1 ==> !Accepted(s, now, minUpvotes)
  {
  }
}
