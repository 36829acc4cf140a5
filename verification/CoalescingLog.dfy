/** The observable history of a coalescer: what was put into its `pending` map
    and what its flush tasks took out again, in the order in which it happened.
    The three coalescers of the program (outbound faders, fader feedback, web
    monitor) are judged against this history. */
module CoalescingLog {
  import opened Common

  datatype Event<V> =
    | Stored(key: string, value: V)
    | Taken(key: string, value: V, at: real)
    | Published(key: string, value: V)
    | Failed(key: string)

  /** The value stored for `key` and not taken since. */
  ghost function Owed<V>(log: seq<Event<V>>, key: string): Option<V> {
    if log == [] then None
    else
      var last, rest := log[|log| - 1], log[..|log| - 1];
      if last.key != key then Owed(rest, key)
      else match last
        case Stored(_, v) => Some(v)
        case Taken(_, _, _) => None
        case _ => Owed(rest, key)
  }

  /** Every value taken is the one owed at that moment. */
  ghost predicate Faithful<V>(log: seq<Event<V>>) {
    forall i :: 0 <= i < |log| && log[i].Taken? ==> Owed(log[..i], log[i].key) == Some(log[i].value)
  }

  /** Values stored for `key`, oldest first. */
  ghost function Stores<V>(log: seq<Event<V>>, key: string): seq<V> {
    if log == [] then []
    else
      var last, older := log[|log| - 1], Stores(log[..|log| - 1], key);
      if last.Stored? && last.key == key then older + [last.value] else older
  }

  /** Values taken for `key`, oldest first. */
  ghost function Takes<V>(log: seq<Event<V>>, key: string): seq<V> {
    if log == [] then []
    else
      var last, older := log[|log| - 1], Takes(log[..|log| - 1], key);
      if last.Taken? && last.key == key then older + [last.value] else older
  }

  /** Two takes of one key are at least `gap` seconds apart. */
  ghost predicate Spaced<V>(log: seq<Event<V>>, gap: real) {
    forall i, j :: 0 <= i < j < |log| && log[i].Taken? && log[j].Taken? && log[i].key == log[j].key
      ==> log[j].at - log[i].at >= gap
  }

  /** The same for one key. */
  ghost predicate SpacedFor<V>(log: seq<Event<V>>, key: string, gap: real) {
    forall i, j :: 0 <= i < j < |log| && log[i].Taken? && log[j].Taken? && log[i].key == key && log[j].key == key
      ==> log[j].at - log[i].at >= gap
  }

  ghost predicate IsSubsequence<V>(sub: seq<V>, full: seq<V>)
    decreases |full|
  {
    if sub == [] then true
    else if full == [] then false
    else
      var rest := full[..|full| - 1];
      || (sub[|sub| - 1] == full[|full| - 1] && IsSubsequence(sub[..|sub| - 1], rest))
      || IsSubsequence(sub, rest)
  }

  lemma OwedAppend<V>(log: seq<Event<V>>, e: Event<V>)
    ensures forall key {:trigger Owed(log + [e], key)} :: Owed(log + [e], key) ==
              if e.key != key then Owed(log, key)
              else if e.Stored? then Some(e.value)
              else if e.Taken? then None
              else Owed(log, key)
  {
    assert (log + [e])[..|log|] == log;
  }

  lemma TakesAppend<V>(log: seq<Event<V>>, e: Event<V>, key: string)
    ensures Takes(log + [e], key) == if e.Taken? && e.key == key then Takes(log, key) + [e.value] else Takes(log, key)
  {
    assert (log + [e])[..|log|] == log;
  }

  // ---- Keeping a distance in time ----

  /** Takes of `key` logged so far are over by `limit`, the gap included. */
  ghost predicate CoolAt<V>(log: seq<Event<V>>, key: string, gap: real, limit: real) {
    forall i :: 0 <= i < |log| && log[i].Taken? && log[i].key == key ==> log[i].at + gap <= limit
  }

  lemma TakePacesFor<V>(log: seq<Event<V>>, e: Event<V>, gap: real)
    requires SpacedFor(log, e.key, gap) && e.Taken? && CoolAt(log, e.key, gap, e.at) && gap >= 0.0
    ensures SpacedFor(log + [e], e.key, gap) && CoolAt(log + [e], e.key, 0.0, e.at)
  {
  }

  lemma OthersPaceFor<V>(log: seq<Event<V>>, e: Event<V>, key: string, gap: real)
    requires SpacedFor(log, key, gap) && (e.Taken? ==> e.key != key)
    ensures SpacedFor(log + [e], key, gap)
    ensures forall limit :: CoolAt(log, key, 0.0, limit) ==> CoolAt(log + [e], key, 0.0, limit)
  {
  }

  /** The log after a take: cool enough before it, and for the other keys after it. */
  lemma TakePaces<V>(log: seq<Event<V>>, e: Event<V>, gap: real)
    requires Spaced(log, gap) && e.Taken? && CoolAt(log, e.key, gap, e.at)
    ensures Spaced(log + [e], gap)
    ensures forall key, limit :: key != e.key && CoolAt(log, key, gap, limit) ==> CoolAt(log + [e], key, gap, limit)
  {
  }

  lemma OtherEventPaces<V>(log: seq<Event<V>>, e: Event<V>, gap: real)
    requires Spaced(log, gap) && !e.Taken?
    ensures Spaced(log + [e], gap)
    ensures forall key, limit :: CoolAt(log, key, gap, limit) ==> CoolAt(log + [e], key, gap, limit)
  {
  }

  lemma FaithfulAppend<V>(log: seq<Event<V>>, e: Event<V>)
    requires Faithful(log)
    requires e.Taken? ==> Owed(log, e.key) == Some(e.value)
    ensures Faithful(log + [e])
  {
    forall i | 0 <= i < |log + [e]| && (log + [e])[i].Taken?
      ensures Owed((log + [e])[..i], (log + [e])[i].key) == Some((log + [e])[i].value)
    {
      assert (log + [e])[..i] == if i < |log| then log[..i] else log;
    }
  }

  lemma FaithfulPrefix<V>(log: seq<Event<V>>)
    requires log != [] && Faithful(log)
    ensures Faithful(log[..|log| - 1])
  {
    var rest := log[..|log| - 1];
    forall i | 0 <= i < |rest| && rest[i].Taken?
      ensures Owed(rest[..i], rest[i].key) == Some(rest[i].value)
    {
      assert rest[..i] == log[..i];
    }
  }

  /** A take hands over a value that really was stored earlier, the newest one
      for its key, and no other take of that key came in between. */
  lemma TakenIsLatestStored<V>(log: seq<Event<V>>, j: nat)
    requires Faithful(log) && j < |log| && log[j].Taken?
    ensures exists i :: 0 <= i < j && log[i] == Stored(log[j].key, log[j].value)
              && forall m :: i < m < j && log[m].key == log[j].key ==> !log[m].Stored? && !log[m].Taken?
  {
    var i := OwedOrigin(log[..j], log[j].key);
    assert log[i] == log[..j][i];
    assert forall m :: i < m < j ==> log[m] == log[..j][m];
  }

  lemma OwedOrigin<V>(log: seq<Event<V>>, key: string) returns (i: nat)
    requires Owed(log, key).Some?
    ensures i < |log| && log[i] == Stored(key, Owed(log, key).value)
    ensures forall m :: i < m < |log| && log[m].key == key ==> !log[m].Stored? && !log[m].Taken?
  {
    var last := log[|log| - 1];
    if last.key == key && last.Stored? {
      i := |log| - 1;
    } else {
      i := OwedOrigin(log[..|log| - 1], key);
    }
  }

  lemma SubsequenceExtend<V>(sub: seq<V>, full: seq<V>, v: V)
    requires IsSubsequence(sub, full)
    ensures IsSubsequence(sub, full + [v])
    ensures IsSubsequence(sub + [v], full + [v])
  {
    assert (full + [v])[..|full|] == full;
    assert (sub + [v])[..|sub|] == sub;
  }

  lemma {:induction false} SubsequenceTransitive<V>(a: seq<V>, b: seq<V>, c: seq<V>)
    requires IsSubsequence(a, b) && IsSubsequence(b, c)
    ensures IsSubsequence(a, c)
    decreases |c|
  {
    if a != [] {
      var rest := c[..|c| - 1];
      if b[|b| - 1] == c[|c| - 1] && IsSubsequence(b[..|b| - 1], rest) {
        if a[|a| - 1] == b[|b| - 1] && IsSubsequence(a[..|a| - 1], b[..|b| - 1]) {
          SubsequenceTransitive(a[..|a| - 1], b[..|b| - 1], rest);
        } else {
          SubsequenceTransitive(a, b[..|b| - 1], rest);
        }
      } else {
        SubsequenceTransitive(a, b, rest);
      }
    }
  }

  /** The takes skip the newest store if that is still owed, and otherwise end
      in it. */
  ghost predicate Follows<V>(takes: seq<V>, stores: seq<V>, owed: Option<V>) {
    && IsSubsequence(takes, stores)
    && (owed.Some? ==>
          && stores != [] && stores[|stores| - 1] == owed.value
          && IsSubsequence(takes, stores[..|stores| - 1]))
    && (owed.None? && stores != [] ==> takes != [] && takes[|takes| - 1] == stores[|stores| - 1])
  }

  lemma FollowsStore<V>(takes: seq<V>, stores: seq<V>, owed: Option<V>, v: V)
    requires Follows(takes, stores, owed)
    ensures Follows(takes, stores + [v], Some(v))
  {
    SubsequenceExtend(takes, stores, v);
    assert (stores + [v])[..|stores|] == stores;
  }

  lemma FollowsTake<V>(takes: seq<V>, stores: seq<V>, v: V)
    requires Follows(takes, stores, Some(v))
    ensures Follows(takes + [v], stores, None)
  {
    hide IsSubsequence;
    var older := stores[..|stores| - 1];
    SubsequenceExtend(takes, older, v);
    assert stores == older + [v];
  }

  lemma {:induction false} LogFollows<V>(log: seq<Event<V>>, key: string)
    requires Faithful(log)
    ensures Follows(Takes(log, key), Stores(log, key), Owed(log, key))
  {
    hide Follows, IsSubsequence, Faithful;
    if log == [] {
      assert Follows<V>([], [], None) by { NothingFollows<V>(); }
    } else {
      var last, rest := log[|log| - 1], log[..|log| - 1];
      FaithfulPrefix(log);
      LogFollows(rest, key);
      if last.Stored? && last.key == key {
        FollowsStore(Takes(rest, key), Stores(rest, key), Owed(rest, key), last.value);
      } else if last.Taken? && last.key == key {
        LastTakeIsOwed(log);
        FollowsTake(Takes(rest, key), Stores(rest, key), last.value);
      }
    }
  }

  lemma NothingFollows<V>()
    ensures Follows<V>([], [], None)
  {
  }

  lemma LastTakeIsOwed<V>(log: seq<Event<V>>)
    requires log != [] && Faithful(log) && log[|log| - 1].Taken?
    ensures Owed(log[..|log| - 1], log[|log| - 1].key) == Some(log[|log| - 1].value)
  {
  }

  /** Takes follow the order of the stores without inventing or repeating a
      value; and a value is still owed exactly when the newest store has not
      been taken: in that case the takes skip it, otherwise they end in it. */
  lemma TakesFollowStores<V>(log: seq<Event<V>>, key: string)
    requires Faithful(log)
    ensures IsSubsequence(Takes(log, key), Stores(log, key))
    ensures Owed(log, key).Some? ==>
              && Stores(log, key) != [] && Stores(log, key)[|Stores(log, key)| - 1] == Owed(log, key).value
              && IsSubsequence(Takes(log, key), Stores(log, key)[..|Stores(log, key)| - 1])
    ensures Owed(log, key).None? && Stores(log, key) != [] ==>
              && Takes(log, key) != []
              && Takes(log, key)[|Takes(log, key)| - 1] == Stores(log, key)[|Stores(log, key)| - 1]
  {
    hide IsSubsequence, Owed, Takes, Stores, Faithful;
    LogFollows(log, key);
  }
}
