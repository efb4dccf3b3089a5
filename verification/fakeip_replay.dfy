/** What a sequence of journal records does to a table, told without replaying
    it: the last record that touches a domain or an address decides. */
module FakeIPReplay {
  import opened Wrappers
  import opened AddressSpace
  import opened Collections
  import opened FakeIPTable
  import DomainName

  function NameOf(u: Update): string {
    var name := DomainName.Normalize(u.mapping.domain);
    if name.Some? then name.value else ""
  }

  function Gone(u: Update): set<string> {
    var removed := NormalizeAll(u.removed);
    if removed.Some? then removed.value else {}
  }

  predicate Has(t: Table, domain: string, address: nat) {
    domain in t && t[domain].address == address
  }

  predicate Writes(u: Update, domain: string, address: nat) {
    NameOf(u) == domain && u.mapping.address == address
  }

  /** The record removes the domain, or takes the domain or the address. */
  predicate Touches(u: Update, domain: string, address: nat) {
    domain in Gone(u) || NameOf(u) == domain || u.mapping.address == address
  }

  predicate Untouched(us: seq<Update>, domain: string, address: nat) {
    forall u :: u in us ==> !Touches(u, domain, address)
  }

  /** Some record pairs the domain with the address and none after it touches
      either. */
  predicate LastWritten(us: seq<Update>, domain: string, address: nat) {
    exists k :: 0 <= k < |us| && Writes(us[k], domain, address) && Untouched(us[k + 1..], domain, address)
  }

  lemma ApplyHas(range: Range, t: Table, u: Update, floor: nat, domain: string, address: nat)
    requires ApplyUpdate(range, t, u, floor).Some?
    ensures Has(ApplyUpdate(range, t, u, floor).value, domain, address)
       <==> Writes(u, domain, address) || (Has(t, domain, address) && !Touches(u, domain, address))
  {
    hide DomainName.Normalize;
  }

  lemma LastOf(us: seq<Update>, domain: string, address: nat)
    requires us != []
    ensures var front, last := us[..|us| - 1], us[|us| - 1];
            && (LastWritten(us, domain, address)
                <==> Writes(last, domain, address) || (LastWritten(front, domain, address) && !Touches(last, domain, address)))
            && (Untouched(us, domain, address) <==> Untouched(front, domain, address) && !Touches(last, domain, address))
  {
    hide Touches, Writes;
    var front, last := us[..|us| - 1], us[|us| - 1];
    assert us == front + [last];
    if Writes(last, domain, address) {
      assert us[|us|..] == [];
    }
    forall k | 0 <= k < |front|
      ensures us[k + 1..] == front[k + 1..] + [last] && us[k] == front[k]
    {
    }
  }

  /** Replay in one sentence: a mapping is recovered exactly when the last record
      that touches its domain or its address wrote it, or no record touches them
      and it was there before. */
  lemma {:induction false} ReplayHas(range: Range, t: Table, us: seq<Update>, floor: nat, domain: string, address: nat)
    requires Replay(range, t, us, floor).Some?
    ensures Has(Replay(range, t, us, floor).value, domain, address)
       <==> LastWritten(us, domain, address) || (Has(t, domain, address) && Untouched(us, domain, address))
  {
    hide ApplyUpdate, Touches, Writes, Has;
    if us != [] {
      hide LastWritten, Untouched;
      var front := us[..|us| - 1];
      ReplayHas(range, t, front, floor, domain, address);
      ApplyHas(range, Replay(range, t, front, floor).value, us[|us| - 1], floor, domain, address);
      LastOf(us, domain, address);
    }
  }

  lemma {:induction false} ReplayConcat(range: Range, t: Table, us: seq<Update>, more: seq<Update>, floor: nat)
    requires Replay(range, t, us, floor).Some?
    ensures Replay(range, t, us + more, floor) == Replay(range, Replay(range, t, us, floor).value, more, floor)
  {
    hide ApplyUpdate;
    if more == [] {
      assert us + more == us;
    } else {
      ReplayConcat(range, t, us, more[..|more| - 1], floor);
      assert (us + more)[..|us + more| - 1] == us + more[..|more| - 1];
    }
  }

  lemma PrefixReplays(range: Range, t: Table, us: seq<Update>, n: nat)
    requires n <= |us| && Replay(range, t, us, 0).Some?
    ensures Replay(range, t, us[..n], 0).Some?
  {
    ReplayFailsFrom(range, t, us, 0, n);
  }

  // ---------------------------------------------------------------------
  // A mapping too many

  /** After every record up to which nothing has displaced the extra mapping
      there is room for one more. */
  ghost predicate RoomForOneMore(range: Range, t: Table, us: seq<Update>, domain: string, address: nat) {
    forall k :: 0 < k <= |us| && Untouched(us[..k], domain, address) ==>
      var r := Replay(range, t, us[..k], 0); r.Some? && |r.value| < range.maxMappings
  }

  lemma EvictStray(t: Table, removed: set<string>, name: string, address: nat, domain: string, slot: Slot)
    requires domain !in t
    ensures var kept, with := Evict(t - removed, name, address), Evict(t[domain := slot] - removed, name, address);
            with == if domain in removed || domain == name || slot.address == address then kept else kept[domain := slot]
  {
  }

  lemma ApplyStray(range: Range, t: Table, u: Update, domain: string, slot: Slot)
    requires domain !in t && AddressFree(t, slot.address) && ApplyUpdate(range, t, u, 0).Some?
    ensures var r := ApplyUpdate(range, t, u, 0).value;
            if Touches(u, domain, slot.address) then ApplyUpdate(range, t[domain := slot], u, 0) == Some(r)
            else
              && domain !in r && AddressFree(r, slot.address)
              && ApplyUpdate(range, t[domain := slot], u, 0) == if |r| < range.maxMappings then Some(r[domain := slot]) else None
  {
    hide DomainName.Normalize, Evict;
    var removed, pair := NormalizeAll(u.removed).value, ValidateMapping(range, u.mapping, 0).value;
    EvictStray(t, removed, pair.0, pair.1.address, domain, slot);
    EvictedKeys(t, removed, pair.0, pair.1.address);
    var kept := Evict(t - removed, pair.0, pair.1.address);
    UpdateKeepsSize(kept, domain, slot);
    UpdateKeepsSize(kept, pair.0, pair.1);
    assert domain != pair.0 ==> kept[domain := slot][pair.0 := pair.1] == kept[pair.0 := pair.1][domain := slot];
  }

  lemma EvictedKeys(t: Table, removed: set<string>, name: string, address: nat)
    ensures var kept := Evict(t - removed, name, address);
            name !in kept && forall d :: d in kept ==> d in t && kept[d] == t[d]
  {
  }

  /** A table with one mapping too many replays what the table without it
      replays, exactly when there is room for one more as long as no record has
      displaced the extra mapping. */
  lemma {:induction false} StrayReplayIff(range: Range, t: Table, us: seq<Update>, domain: string, slot: Slot)
    requires domain !in t && AddressFree(t, slot.address) && Replay(range, t, us, 0).Some?
    ensures Replay(range, t[domain := slot], us, 0).Some? <==> RoomForOneMore(range, t, us, domain, slot.address)
    ensures var clean := Replay(range, t, us, 0).value;
            && (Untouched(us, domain, slot.address) ==> domain !in clean && AddressFree(clean, slot.address))
            && (Replay(range, t[domain := slot], us, 0).Some? ==>
                  Replay(range, t[domain := slot], us, 0).value ==
                    if Untouched(us, domain, slot.address) then clean[domain := slot] else clean)
  {
    hide ApplyUpdate, Touches, AddressFree, Untouched;
    if us == [] {
      NothingTouches(domain, slot.address);
    } else {
      var front, last := us[..|us| - 1], us[|us| - 1];
      StrayReplayIff(range, t, front, domain, slot);
      LastOf(us, domain, slot.address);
      RoomStep(range, t, us, domain, slot.address);
      hide RoomForOneMore;
      if Untouched(front, domain, slot.address) {
        ApplyStray(range, Replay(range, t, front, 0).value, last, domain, slot);
      }
    }
  }

  lemma NothingTouches(domain: string, address: nat)
    ensures Untouched([], domain, address)
  {
  }

  lemma RoomStep(range: Range, t: Table, us: seq<Update>, domain: string, address: nat)
    requires us != [] && Replay(range, t, us, 0).Some?
    ensures RoomForOneMore(range, t, us, domain, address)
       <==> RoomForOneMore(range, t, us[..|us| - 1], domain, address)
            && (Untouched(us, domain, address) ==> |Replay(range, t, us, 0).value| < range.maxMappings)
  {
    hide Replay, Untouched;
    var front := us[..|us| - 1];
    assert us[..|us|] == us;
    assert forall k :: 0 < k <= |front| ==> us[..k] == front[..k];
  }
}
