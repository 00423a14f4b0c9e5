/**
 The derived views of the staff dashboard: the search filter over the
 visitor list, the split of the filtered list into the pending queue and the
 decided history, and the per-id cache of purpose analyses.

 Lower-casing is a parameter `lower` standing for `String.prototype.toLowerCase`;
 the analysis service is a parameter `service`, its reply an opaque value.
 */
module AdminPage {
  import opened Types
  import opened Builtins

  // ---------------------------------------------------------------------------
  // Search
  // ---------------------------------------------------------------------------

  /** A visitor matches a search term when its lower-cased name includes the
      lower-cased term, or its phone number includes the term as typed. */
  predicate Matches(lower: string -> string, v: Visitor, term: string)
    ensures Includes(v.phoneNumber, term) ==> Matches(lower, v, term)
    ensures term == "" ==> Matches(lower, v, term)
  {
    Includes(lower(v.fullName), lower(term)) || Includes(v.phoneNumber, term)
  }

  /** The visitors that match the search term, in list order. */
  function Search(lower: string -> string, vs: seq<Visitor>, term: string): (r: seq<Visitor>)
    ensures forall i :: 0 <= i < |r| ==> r[i] in vs && Matches(lower, r[i], term)
    ensures forall i :: 0 <= i < |vs| && Matches(lower, vs[i], term) ==> vs[i] in r
    ensures |r| == CountWhere(vs, v => Matches(lower, v, term))
  {
    FilterLength(vs, v => Matches(lower, v, term));
    Filter(vs, v => Matches(lower, v, term))
  }

  /** The search result keeps the list order: it is a subsequence of the list. */
  lemma SearchIsSubsequence(lower: string -> string, vs: seq<Visitor>, term: string)
    ensures IsSubsequence(Search(lower, vs, term), vs)
  {
    FilterIsSubsequence(vs, v => Matches(lower, v, term));
  }

  /** An empty search term keeps every visitor, in the original order,
      whatever lower-casing does, because every phone number includes "". */
  lemma SearchEmptyTermKeepsAll(lower: string -> string, vs: seq<Visitor>)
    ensures Search(lower, vs, "") == vs
  {
    forall v | v in vs
      ensures Matches(lower, v, "")
    {
      EmptyIncluded(v.phoneNumber);
    }
    FilterKeepsAll(vs, v => Matches(lower, v, ""));
  }

  /** The phone part of the match is case sensitive and needs no lower-casing:
      a term occurring in the phone number as typed always matches. */
  lemma PhoneSubstringMatches(lower: string -> string, v: Visitor, term: string, i: int)
    requires OccursAt(v.phoneNumber, term, i)
    ensures Matches(lower, v, term)
  {
    OccursImpliesIncludes(v.phoneNumber, term, i);
  }

  // ---------------------------------------------------------------------------
  // Pending queue and history
  // ---------------------------------------------------------------------------

  predicate IsPending(v: Visitor) { v.status == PENDING }

  predicate IsDecided(v: Visitor) { v.status != PENDING }

  /** The records still waiting for a decision, in list order. */
  function Pending(vs: seq<Visitor>): (r: seq<Visitor>)
    ensures forall i :: 0 <= i < |r| ==> r[i] in vs && r[i].status == PENDING
    ensures forall i :: 0 <= i < |vs| && vs[i].status == PENDING ==> vs[i] in r
  {
    Filter(vs, IsPending)
  }

  /** The records already approved or rejected, in list order. */
  function Historical(vs: seq<Visitor>): (r: seq<Visitor>)
    ensures forall i :: 0 <= i < |r| ==> r[i] in vs
    ensures forall i :: 0 <= i < |r| ==> r[i].status == APPROVED || r[i].status == REJECTED
    ensures forall i :: 0 <= i < |vs| && vs[i].status != PENDING ==> vs[i] in r
  {
    Filter(vs, IsDecided)
  }

  /** The two views split a list exactly: every record lands in exactly one of
      them, their sizes add up, together they hold every record of the list
      with its multiplicity, and each keeps the list order. */
  lemma PendingHistoricalPartition(vs: seq<Visitor>)
    ensures forall v :: v in vs ==> (v in Pending(vs) <==> v !in Historical(vs))
    ensures |Pending(vs)| + |Historical(vs)| == |vs|
    ensures multiset(Pending(vs)) + multiset(Historical(vs)) == multiset(vs)
    ensures IsSubsequence(Pending(vs), vs) && IsSubsequence(Historical(vs), vs)
  {
    FilterPartition(vs, IsPending, IsDecided);
    FilterIsSubsequence(vs, IsPending);
    FilterIsSubsequence(vs, IsDecided);
    forall v | v in vs
      ensures v in Pending(vs) <==> v !in Historical(vs)
    {
      var i :| 0 <= i < |vs| && vs[i] == v;
      if v in Pending(vs) {
        var j :| 0 <= j < |Pending(vs)| && Pending(vs)[j] == v;
      }
      if v in Historical(vs) {
        var j :| 0 <= j < |Historical(vs)| && Historical(vs)[j] == v;
      }
    }
  }

  // ---------------------------------------------------------------------------
  // Purpose-analysis cache
  // ---------------------------------------------------------------------------

  /** The cache after a click on "analyse", and the purposes sent to the service. */
  datatype AnalyzeStep<A> = AnalyzeStep(cache: map<string, A>, requests: seq<string>)

  /** The guard: an id whose cached entry is present and truthy is not analysed again.
      `truthy` is JavaScript truthiness of the stored reply. */
  predicate Cached<A>(cache: map<string, A>, id: string, truthy: A -> bool)
  {
    id in cache && truthy(cache[id])
  }

  /** Storing a reply under `k` affects the guard for `k` alone, and the guard
      then judges the stored reply by its own truthiness. */
  lemma CachedAfterStore<A>(cache: map<string, A>, id: string, k: string, x: A, truthy: A -> bool)
    ensures Cached(cache[k := x], id, truthy) <==>
            (if k == id then truthy(x) else Cached(cache, id, truthy))
  {
  }

  /** A click on "analyse" for record `id`: if the guard holds nothing happens;
      otherwise the purpose is sent to the service and its reply is stored under
      `id`, replacing whatever was there. */
  function HandleAnalyze<A>(cache: map<string, A>, id: string, purpose: string,
                            truthy: A -> bool, service: string -> A): (r: AnalyzeStep<A>)
    ensures Cached(cache, id, truthy) ==> r.requests == [] && r.cache == cache
    ensures !Cached(cache, id, truthy) ==> r.requests == [purpose]
    ensures !Cached(cache, id, truthy) ==> id in r.cache && r.cache[id] == service(purpose)
    ensures r.cache.Keys == cache.Keys + {id} || r.cache == cache
    ensures forall k :: k in cache && k != id ==> k in r.cache && r.cache[k] == cache[k]
  {
    if Cached(cache, id, truthy) then AnalyzeStep(cache, [])
    else AnalyzeStep(cache[id := service(purpose)], [purpose])
  }

  /** Once a truthy reply is stored, a second click on the same record does not
      consult the service and leaves the cache as it is. */
  lemma AnalyzeAtMostOnce<A>(cache: map<string, A>, id: string, purpose: string, purpose2: string,
                             truthy: A -> bool, service: string -> A)
    requires truthy(service(purpose))
    ensures var first := HandleAnalyze(cache, id, purpose, truthy, service);
            var second := HandleAnalyze(first.cache, id, purpose2, truthy, service);
            second.requests == [] && second.cache == first.cache
  {
  }

  /** A falsy stored reply does not count as cached: the next click asks again. */
  lemma FalsyReplyIsRetried<A>(cache: map<string, A>, id: string, purpose: string,
                               truthy: A -> bool, service: string -> A)
    requires !Cached(cache, id, truthy)
    requires !truthy(service(purpose))
    ensures var first := HandleAnalyze(cache, id, purpose, truthy, service);
            HandleAnalyze(first.cache, id, purpose, truthy, service).requests == [purpose]
  {
  }
}
