/** The process-wide registry of UDP sessions with its global and per-source
    limits. */
module UDPLimiter {
  import opened Wrappers

  datatype Key = Key(source: string, sourcePort: nat, destination: string, destinationPort: nat)

  datatype Refusal = Duplicate | Capacity | SourceCapacity

  function OfSource(sessions: set<Key>, source: string): set<Key> {
    set key | key in sessions && key.source == source
  }

  /** The counters are exactly the sizes of the sources' sessions, and a source
      without sessions has no counter. */
  ghost predicate Counts(sessions: set<Key>, perSource: map<string, nat>) {
    && (forall s :: s in perSource ==> perSource[s] == |OfSource(sessions, s)| > 0)
    && forall key :: key in sessions ==> key.source in perSource
  }

  lemma Added(sessions: set<Key>, key: Key, source: string)
    requires key !in sessions
    ensures |OfSource(sessions + {key}, source)| == |OfSource(sessions, source)| + if key.source == source then 1 else 0
  {
    if key.source == source {
      assert OfSource(sessions + {key}, source) == OfSource(sessions, source) + {key};
    } else {
      assert OfSource(sessions + {key}, source) == OfSource(sessions, source);
    }
  }

  lemma Removed(sessions: set<Key>, key: Key, source: string)
    requires key in sessions
    ensures |OfSource(sessions - {key}, source)| == |OfSource(sessions, source)| - if key.source == source then 1 else 0
  {
    assert sessions - {key} + {key} == sessions;
    Added(sessions - {key}, key, source);
  }

  lemma AbsentMeansNone(sessions: set<Key>, perSource: map<string, nat>, source: string)
    requires Counts(sessions, perSource) && source !in perSource
    ensures OfSource(sessions, source) == {}
  {
  }

  class Limiter {
    const maxSessions: nat
    const maxPerSource: nat
    var sessions: set<Key>
    var perSource: map<string, nat>

    ghost predicate Valid()
      reads this
    {
      && Counts(sessions, perSource)
      && |sessions| <= maxSessions
      && forall s :: s in perSource ==> perSource[s] <= maxPerSource
    }

    constructor (maxSessions: nat, maxPerSource: nat)
      requires 0 < maxPerSource <= maxSessions
      ensures Valid() && sessions == {}
      ensures this.maxSessions == maxSessions && this.maxPerSource == maxPerSource
    {
      this.maxSessions := maxSessions;
      this.maxPerSource := maxPerSource;
      sessions, perSource := {}, map[];
    }

    /** A session is admitted exactly when it is new and both limits leave room. */
    method Register(key: Key) returns (refusal: Option<Refusal>)
      requires Valid()
      modifies this
      ensures Valid()
      ensures refusal == if key in old(sessions) then Some(Duplicate)
                         else if |old(sessions)| >= maxSessions then Some(Capacity)
                         else if |OfSource(old(sessions), key.source)| >= maxPerSource then Some(SourceCapacity)
                         else None
      ensures sessions == if refusal.None? then old(sessions) + {key} else old(sessions)
    {
      if key in sessions {
        return Some(Duplicate);
      }
      if |sessions| >= maxSessions {
        return Some(Capacity);
      }
      var count := if key.source in perSource then perSource[key.source] else 0;
      if key.source !in perSource {
        AbsentMeansNone(sessions, perSource, key.source);
      }
      if count >= maxPerSource {
        return Some(SourceCapacity);
      }
      forall s
        ensures |OfSource(sessions + {key}, s)| == |OfSource(sessions, s)| + if key.source == s then 1 else 0
      {
        Added(sessions, key, s);
      }
      sessions := sessions + {key};
      perSource := perSource[key.source := count + 1];
      refusal := None;
    }

    /** Unregistering is idempotent and frees exactly one place. */
    method Unregister(key: Key)
      requires Valid()
      modifies this
      ensures Valid() && sessions == old(sessions) - {key}
    {
      if key in sessions {
        forall s
          ensures |OfSource(sessions - {key}, s)| == |OfSource(sessions, s)| - if key.source == s then 1 else 0
        {
          Removed(sessions, key, s);
        }
        OthersKeepSource(sessions, key);
        sessions := sessions - {key};
        var count := perSource[key.source] - 1;
        if count == 0 {
          perSource := perSource - {key.source};
        } else {
          perSource := perSource[key.source := count];
        }
      }
    }
  }

  /** Either another session of the source is left, or none was. */
  lemma OthersKeepSource(sessions: set<Key>, key: Key)
    requires key in sessions
    ensures |OfSource(sessions, key.source)| >= 1
    ensures (exists other :: other in sessions - {key} && other.source == key.source) ==> |OfSource(sessions, key.source)| >= 2
  {
    Removed(sessions, key, key.source);
    if other :| other in sessions - {key} && other.source == key.source {
      assert other in OfSource(sessions - {key}, key.source);
    }
  }
}
