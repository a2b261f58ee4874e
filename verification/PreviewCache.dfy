/**
  The cache of map previews (frontend/journey-api.js): one request per key at a time, answers kept
  for ten minutes, failures forgotten.  Calls, answers, failures and clock ticks come in any order.
 */
module PreviewCache {
  import opened Text

  const TEN_MINUTES := 10 * 60 * 1000

  /** A cache entry: an answer with its time, or the request whose promise callers share. */
  datatype Entry = Ready(data: string, timestamp: int) | Waiting(request: nat)

  datatype Reply = Hit(data: string) | Joined(request: nat)

  /** What happened so far on the network. */
  datatype Event =
    | Started(key: string, request: nat)
    | Arrived(key: string, request: nat, data: string, at: int)
    | Broke(key: string, request: nat)

  function LastFor(history: seq<Event>, key: string): (last: Option<Event>) {
    if history == [] then None
    else if history[|history| - 1].key == key then Some(history[|history| - 1])
    else LastFor(history[..|history| - 1], key)
  }

  /** What the last thing that happened to a key leaves in the cache. */
  function EntryAfter(last: Option<Event>): (entry: Option<Entry>) {
    match last
    case Some(Started(_, request)) => Some(Waiting(request))
    case Some(Arrived(_, _, data, at)) => Some(Ready(data, at))
    case _ => None
  }

  function Lookup(cache: map<string, Entry>, key: string): (entry: Option<Entry>) {
    if key in cache then Some(cache[key]) else None
  }

  /** An event may follow a history: a start on an idle key, an end of the request that is open. */
  predicate MayFollow(history: seq<Event>, event: Event) {
    var last := LastFor(history, event.key);
    if event.Started? then !(last.Some? && last.value.Started?)
    else last == Some(Started(event.key, event.request))
  }

  predicate Alternates(history: seq<Event>) {
    forall n | 0 <= n < |history| :: MayFollow(history[..n], history[n])
  }

  lemma LastForStep(history: seq<Event>, event: Event, key: string)
    ensures LastFor(history + [event], key) == if event.key == key then Some(event) else LastFor(history, key)
  {
    assert (history + [event])[..|history|] == history;
  }

  lemma AlternatesStep(history: seq<Event>, event: Event)
    requires Alternates(history) && MayFollow(history, event)
    ensures Alternates(history + [event])
  {
    var longer := history + [event];
    forall n | 0 <= n < |longer|
      ensures MayFollow(longer[..n], longer[n])
    {
      assert longer[..n] == history[..n];
      assert n == |history| ==> history[..n] == history;
    }
  }

  /** As long as a request has not ended, its start is the last thing that happened to its key. */
  lemma {:induction false} StaysOpen(history: seq<Event>, i: nat, n: nat)
    requires Alternates(history) && i < n <= |history| && history[i].Started?
    requires forall m | i < m < n :: history[m].request != history[i].request || history[m].Started?
    ensures LastFor(history[..n], history[i].key) == Some(history[i])
  {
    assert history[..n] == history[..n - 1] + [history[n - 1]];
    LastForStep(history[..n - 1], history[n - 1], history[i].key);
    if n > i + 1 {
      StaysOpen(history, i, n - 1);
      assert MayFollow(history[..n - 1], history[n - 1]);
    }
  }

  /** Two requests for one key never overlap: the first ended before the second started. */
  lemma SingleFlight(history: seq<Event>, i: nat, j: nat)
    requires Alternates(history) && i < j < |history|
    requires history[i].Started? && history[j].Started? && history[i].key == history[j].key
    ensures exists m :: i < m < j && !history[m].Started? && history[m].request == history[i].request
  {
    assert MayFollow(history[..j], history[j]);
    if forall m | i < m < j :: history[m].request != history[i].request || history[m].Started? {
      StaysOpen(history, i, j);
    }
  }

  class PreviewCache {
    var cache: map<string, Entry>
    /** The requests in flight, with their keys. */
    var outstanding: map<nat, string>
    var nextRequest: nat
    /** What `Date.now()` gives. */
    var now: int
    ghost var history: seq<Event>

    /**
      The cache is a function of the history, and its promises are exactly the requests in flight;
      so there is at most one of them per key.
     */
    ghost predicate Valid()
      reads this
    {
      && Alternates(history)
      && (forall key :: Lookup(cache, key) == EntryAfter(LastFor(history, key)))
      && (forall request | request in outstanding :: Lookup(cache, outstanding[request]) == Some(Waiting(request)))
      && (forall key | key in cache && cache[key].Waiting? ::
            cache[key].request in outstanding && outstanding[cache[key].request] == key)
      && (forall request | request in outstanding :: request < nextRequest)
    }

    constructor (now: int)
      ensures Valid() && cache == map[] && outstanding == map[] && history == [] && this.now == now
    {
      cache, outstanding, nextRequest, this.now, history := map[], map[], 0, now, [];
    }

    /** A hit is an answer younger than ten minutes; otherwise the caller shares the one open request. */
    method FetchJourneyMapPreview(key: string) returns (reply: Reply)
      requires Valid()
      modifies this
      ensures Valid() && now == old(now)
      ensures reply.Hit? ==>
        && history == old(history) && cache == old(cache) && outstanding == old(outstanding)
        && exists request, at :: now - at < TEN_MINUTES && LastFor(history, key) == Some(Arrived(key, request, reply.data, at))
      ensures (exists request, data, at ::
                 LastFor(old(history), key) == Some(Arrived(key, request, data, at)) && now - at < TEN_MINUTES) ==> reply.Hit?
      ensures reply.Joined? ==>
        && reply.request in outstanding && outstanding[reply.request] == key
        && (forall request | request in outstanding && outstanding[request] == key :: request == reply.request)
        && (if exists request :: request in old(outstanding) && old(outstanding)[request] == key
            then history == old(history) && outstanding == old(outstanding)
            else history == old(history) + [Started(key, reply.request)] && outstanding == old(outstanding)[reply.request := key])
    {
      var cached := Lookup(cache, key);
      assert cached == EntryAfter(LastFor(history, key));
      if cached.Some? && cached.value.Ready? && now - cached.value.timestamp < TEN_MINUTES {
        LastIsArrival(history, key);
        return Hit(cached.value.data);
      }
      if cached.Some? && cached.value.Waiting? {
        return Joined(cached.value.request);
      }
      var request := nextRequest;
      nextRequest := nextRequest + 1;
      cache := cache[key := Waiting(request)];
      outstanding := outstanding[request := key];
      Record(Started(key, request));
      return Joined(request);
    }

    /** The answer of a request arrives and replaces its promise. */
    method Arrive(request: nat, data: string)
      requires Valid()
      modifies this
      ensures Valid() && now == old(now)
      ensures request in old(outstanding) ==>
        && cache == old(cache)[old(outstanding)[request] := Ready(data, now)]
        && outstanding == old(outstanding) - {request}
        && history == old(history) + [Arrived(old(outstanding)[request], request, data, now)]
      ensures request !in old(outstanding) ==> cache == old(cache) && outstanding == old(outstanding) && history == old(history)
    {
      if request !in outstanding {
        return;
      }
      var key := outstanding[request];
      WaitingIsStarted(history, key, request);
      outstanding := outstanding - {request};
      cache := cache[key := Ready(data, now)];
      Record(Arrived(key, request, data, now));
    }

    /** A request fails or is aborted; it leaves no entry behind. */
    method Fail(request: nat)
      requires Valid()
      modifies this
      ensures Valid() && now == old(now)
      ensures request in old(outstanding) ==>
        && cache == old(cache) - {old(outstanding)[request]}
        && outstanding == old(outstanding) - {request}
        && history == old(history) + [Broke(old(outstanding)[request], request)]
      ensures request !in old(outstanding) ==> cache == old(cache) && outstanding == old(outstanding) && history == old(history)
    {
      if request !in outstanding {
        return;
      }
      var key := outstanding[request];
      WaitingIsStarted(history, key, request);
      outstanding := outstanding - {request};
      cache := cache - {key};
      Record(Broke(key, request));
    }

    /** The clock moves, in whatever direction. */
    method Tick(to: int)
      requires Valid()
      modifies this`now
      ensures Valid() && now == to
    {
      now := to;
    }

    /** Writes an event into the history once cache and requests have been changed for it. */
    ghost method Record(event: Event)
      requires Alternates(history) && MayFollow(history, event)
      requires forall key | key != event.key :: Lookup(cache, key) == EntryAfter(LastFor(history, key))
      requires Lookup(cache, event.key) == EntryAfter(Some(event))
      modifies this`history
      ensures history == old(history) + [event] && Alternates(history)
      ensures forall key :: Lookup(cache, key) == EntryAfter(LastFor(history, key))
    {
      AlternatesStep(history, event);
      forall key
        ensures Lookup(cache, key) == EntryAfter(LastFor(history + [event], key))
      {
        LastForStep(history, event, key);
      }
      history := history + [event];
    }
  }

  lemma LastIsArrival(history: seq<Event>, key: string)
    requires EntryAfter(LastFor(history, key)).Some? && EntryAfter(LastFor(history, key)).value.Ready?
    ensures var entry := EntryAfter(LastFor(history, key)).value;
      exists request :: LastFor(history, key) == Some(Arrived(key, request, entry.data, entry.timestamp))
  {
    LastForKey(history, key);
  }

  lemma WaitingIsStarted(history: seq<Event>, key: string, request: nat)
    requires EntryAfter(LastFor(history, key)) == Some(Waiting(request))
    ensures LastFor(history, key) == Some(Started(key, request))
  {
    LastForKey(history, key);
  }

  lemma {:induction false} LastForKey(history: seq<Event>, key: string)
    ensures LastFor(history, key).Some? ==> LastFor(history, key).value.key == key
  {
    if history != [] {
      LastForKey(history[..|history| - 1], key);
    }
  }

  // ---------- Whole runs ----------

  datatype Step = Call(key: string) | Answer(request: nat, data: string) | Failure(request: nat) | ClockTick(to: int)

  /** In every interleaving the promises in the cache are exactly the requests in flight, one per key. */
  method RunPreviewCache(start: int, steps: seq<Step>) returns (cache: map<string, Entry>, outstanding: map<nat, string>)
    ensures forall key, request ::
      (key in cache && cache[key] == Waiting(request)) <==> (request in outstanding && outstanding[request] == key)
  {
    var previews := new PreviewCache(start);
    for n := 0 to |steps|
      invariant fresh(previews) && previews.Valid()
    {
      match steps[n] {
        case Call(key) => var _ := previews.FetchJourneyMapPreview(key);
        case Answer(request, data) => previews.Arrive(request, data);
        case Failure(request) => previews.Fail(request);
        case ClockTick(to) => previews.Tick(to);
      }
    }
    return previews.cache, previews.outstanding;
  }

  /**
    A call, its answer, and a second call some milliseconds later: it is answered from the cache
    exactly if less than ten minutes have passed, and starts a second request otherwise.
   */
  method CallAgainAfter(key: string, data: string, milliseconds: int) returns (reply: Reply, requests: nat)
    ensures reply.Hit? <==> milliseconds < 600_000
    ensures reply.Hit? ==> reply.data == data
    ensures requests == if reply.Hit? then 1 else 2
  {
    var previews := new PreviewCache(0);
    var first := previews.FetchJourneyMapPreview(key);
    assert LastFor([], key) == None && [] + [Started(key, first.request)] == [Started(key, first.request)];
    previews.Arrive(first.request, data);
    LastForStep([Started(key, first.request)], Arrived(key, first.request, data, 0), key);
    previews.Tick(milliseconds);
    ghost var history := previews.history;
    assert LastFor(history, key) == Some(Arrived(key, first.request, data, 0));
    assert previews.now - 0 == milliseconds;
    reply := previews.FetchJourneyMapPreview(key);
    assert reply.Hit? ==> previews.history == history;
    requests := if reply.Hit? then 1 else 2;
  }
}
