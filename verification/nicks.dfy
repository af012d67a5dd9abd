/** Nickname resolution of the crosslink plugin (plugins/crosslink.py):
    `_get_email_nick`, which picks a nickname out of the resolved identities,
    and the per-email nickname cache of `add_nick`. */
module Nicks {
  import opened Wrappers
  import opened Config
  import opened Services
  import opened Resolved

  /** The services whose identities can name a user, in the order
      `_get_email_nick` tries them. */
  const NickServices: seq<ServiceKind> := [GitHub, GitLab, OpenHub]

  /** Whether `item` is an instance of the identity class of a configured
      nick service. */
  predicate NamesUser(item: ResolvedItem, services: map<ServiceKind, Service>) {
    item.IdentityItem? && item.identity.service in NickServices && item.identity.service in services
  }

  /** The preferred username of the last item that names the user, or `None`
      when no item does. */
  function LastNick(results: seq<ResolvedItem>, services: map<ServiceKind, Service>): (nick: Value)
    ensures (forall i :: 0 <= i < |results| ==> !NamesUser(results[i], services)) ==> nick == Null
    ensures (exists i :: 0 <= i < |results| && NamesUser(results[i], services)) ==>
      exists i :: 0 <= i < |results| && NamesUser(results[i], services)
        && nick == results[i].identity.preferredUsername
        && forall j :: i < j < |results| ==> !NamesUser(results[j], services)
  {
    if |results| == 0 then Null
    else
      var last := results[|results| - 1];
      if NamesUser(last, services) then last.identity.preferredUsername
      else LastNick(results[..|results| - 1], services)
  }

  /** The selection loop of `_get_email_nick`: every item is tried against
      each nick service in turn; a match records the username and leaves the
      inner loop only, so a later match overrides an earlier one. */
  method SelectNick(results: seq<ResolvedItem>, services: map<ServiceKind, Service>) returns (nick: Value)
    ensures nick == LastNick(results, services)
  {
    nick := Null;
    var i := 0;
    while i < |results|
      invariant 0 <= i <= |results|
      invariant nick == LastNick(results[..i], services)
    {
      var item := results[i];
      var k := 0;
      var found := false;
      while k < |NickServices| && !found
        invariant 0 <= k <= |NickServices|
        invariant found ==> NamesUser(item, services) && nick == item.identity.preferredUsername
        invariant !found ==> nick == LastNick(results[..i], services)
        invariant !found ==> forall m :: 0 <= m < k ==>
          !(NickServices[m] in services && item.IdentityItem? && item.identity.service == NickServices[m])
      {
        var key := NickServices[k];
        if key in services && item.IdentityItem? && item.identity.service == key {
          nick := item.identity.preferredUsername;
          found := true;
        }
        k := k + 1;
      }
      assert results[..i + 1][..i] == results[..i];
      i := i + 1;
    }
    assert results[..i] == results;
  }

  /** What resolving an email address yields: `Email(email)` rejects the
      address, or the walk produces a sequence of items. */
  datatype Resolution = EmailRejected | Walked(items: seq<ResolvedItem>)

  /** The exception `_get_email_nick` raises. */
  datatype Raised = UnboundLocalError(variable: string)

  /** `_get_email_nick` as written: when `Email(email)` raises, the exception
      is only logged, and the next line reads the never-assigned `start`. */
  function LookupNickAsWritten(resolution: Resolution, services: map<ServiceKind, Service>)
    : (r: Result<Value, Raised>)
    ensures r.Failure? <==> resolution.EmailRejected?
    ensures r.Failure? ==> r.error == UnboundLocalError("start")
    ensures r.Success? ==> r.value == LastNick(resolution.items, services)
  {
    match resolution
    case EmailRejected => Failure(UnboundLocalError("start"))
    case Walked(items) => Success(LastNick(items, services))
  }

  /** A rejected address makes the as-written lookup raise. */
  lemma RejectedEmailRaises(services: map<ServiceKind, Service>)
    ensures LookupNickAsWritten(EmailRejected, services) == Failure(UnboundLocalError("start"))
  {
  }

  /** `_get_email_nick` as evidently intended: a rejected address is logged
      and the nickname stays `None`. */
  function LookupNick(resolution: Resolution, services: map<ServiceKind, Service>): (nick: Value)
    ensures resolution.EmailRejected? ==> nick == Null
    ensures resolution.Walked? ==> nick == LastNick(resolution.items, services)
  {
    match resolution
    case EmailRejected => Null
    case Walked(items) => LastNick(items, services)
  }

  /** The corrected lookup never raises, agrees with the code as written
      whenever that returns, and finds no nickname for a rejected address. */
  lemma LookupNickCorrectsOnlyTheRejectedCase(resolution: Resolution, services: map<ServiceKind, Service>)
    ensures resolution.Walked? ==> LookupNickAsWritten(resolution, services) == Success(LookupNick(resolution, services))
    ensures resolution.EmailRejected? ==> !Truthy(LookupNick(resolution, services))
  {
  }

  /** The outcome of `add_nick` for one message: the updated cache, and the
      nickname attached to the sender (`None` when the sender already had one
      and nothing was attached). */
  datatype NickUpdate = NickUpdate(cache: map<string, Value>, attached: Option<Value>)

  /** Whether the cache holds a truthy nickname for `email`; anything else
      (a missing entry, `None`, `''`) is recomputed. */
  predicate CachedTruthy(cache: map<string, Value>, email: string) {
    email in cache && Truthy(cache[email])
  }

  /** `add_nick`: a sender without a nickname gets the cached nickname of
      their first email address, looked up (and cached) unless the cache
      already holds a truthy one. */
  function AddNick(
    cache: map<string, Value>, senderNick: Value, email: string,
    resolution: Resolution, services: map<ServiceKind, Service>): (u: NickUpdate)
    ensures Truthy(senderNick) ==> u == NickUpdate(cache, None)
    ensures !Truthy(senderNick) ==> email in u.cache && u.attached == Some(u.cache[email])
    ensures !Truthy(senderNick) && CachedTruthy(cache, email) ==> u.cache == cache
    ensures !Truthy(senderNick) && !CachedTruthy(cache, email) ==>
      u.cache[email] == LookupNick(resolution, services)
    ensures u.cache.Keys == cache.Keys || u.cache.Keys == cache.Keys + {email}
    ensures forall e :: e in cache && e != email ==> u.cache[e] == cache[e]
  {
    if Truthy(senderNick) then NickUpdate(cache, None)
    else
      var updated :=
        if CachedTruthy(cache, email) then cache
        else cache[email := LookupNick(resolution, services)];
      NickUpdate(updated, Some(updated[email]))
  }

  /** `add_nick` as written: the lookup is the as-written one, so a rejected
      address raises out of the filter before the cache is written or a
      nickname is attached. Whenever it returns, it agrees with `AddNick`. */
  function AddNickAsWritten(
    cache: map<string, Value>, senderNick: Value, email: string,
    resolution: Resolution, services: map<ServiceKind, Service>): (r: Result<NickUpdate, Raised>)
    ensures r.Failure? <==>
      !Truthy(senderNick) && !CachedTruthy(cache, email) && resolution.EmailRejected?
    ensures r.Failure? ==> r.error == UnboundLocalError("start")
    ensures r.Success? ==> r.value == AddNick(cache, senderNick, email, resolution, services)
  {
    if Truthy(senderNick) then Success(NickUpdate(cache, None))
    else if CachedTruthy(cache, email) then Success(NickUpdate(cache, Some(cache[email])))
    else
      match LookupNickAsWritten(resolution, services)
      case Failure(e) => Failure(e)
      case Success(nick) => Success(NickUpdate(cache[email := nick], Some(nick)))
  }

  /** A truthy cached nickname is never looked up again: a later message
      from the same address gets it back, whatever resolving would now give. */
  lemma TruthyNickNeverRecomputed(
    cache: map<string, Value>, email: string, first: Resolution, later: Resolution,
    services: map<ServiceKind, Service>)
    ensures
      var u1 := AddNick(cache, Null, email, first, services);
      Truthy(u1.cache[email]) ==>
        AddNick(u1.cache, Null, email, later, services) == u1
  {
  }

  /** A falsy nickname is recomputed, and overwritten, on every message. */
  lemma FalsyNickRecomputedEachTime(
    cache: map<string, Value>, email: string, first: Resolution, later: Resolution,
    services: map<ServiceKind, Service>)
    ensures
      var u1 := AddNick(cache, Null, email, first, services);
      var u2 := AddNick(u1.cache, Null, email, later, services);
      !Truthy(u1.cache[email]) ==>
        u2.cache == u1.cache[email := LookupNick(later, services)]
        && u2.attached == Some(LookupNick(later, services))
  {
  }
}
