/**
 Log filters and bloom filters (cita-chain/types/src/filter.rs, log_entry.rs,
 receipt.rs). A bloom is the set of its bits: containment is inclusion and
 combination is union.
 */
module Blooms {
  import opened Basics

  type Address(==, !new)
  type Topic(==, !new)
  type Bloom = set<nat>

  /** Hashing an address or a topic sets some bits. */
  datatype Hashing = Hashing(ofAddress: Address -> Bloom, ofTopic: Topic -> Bloom)

  /** An address sets at least one bit. */
  ghost predicate Proper(h: Hashing) {
    forall a :: h.ofAddress(a) != {}
  }

  datatype LogEntry = LogEntry(address: Address, topics: seq<Topic>, data: seq<bv8>)

  /** A slot is free (`None`) or lists the topics that may stand at its position. */
  datatype Filter = Filter(addresses: Option<seq<Address>>, topics: seq<Option<seq<Topic>>>)

  // ---------------------------------------------------------------------
  // Blooms of entries and receipts
  // ---------------------------------------------------------------------

  /** The entry's address, with its topics folded in. */
  function EntryBloom(h: Hashing, e: LogEntry): Bloom {
    FoldTopics(h, h.ofAddress(e.address), e.topics)
  }

  function FoldTopics(h: Hashing, b: Bloom, topics: seq<Topic>): Bloom
    decreases |topics|
  {
    if topics == [] then b else FoldTopics(h, b + h.ofTopic(topics[0]), topics[1..])
  }

  /** The combination of all entries' blooms. */
  function LogsBloom(h: Hashing, logs: seq<LogEntry>): Bloom {
    FoldLogs(h, {}, logs)
  }

  function FoldLogs(h: Hashing, b: Bloom, logs: seq<LogEntry>): Bloom
    decreases |logs|
  {
    if logs == [] then b else FoldLogs(h, b + EntryBloom(h, logs[0]), logs[1..])
  }

  lemma {:induction false} FoldTopicsContains(h: Hashing, b: Bloom, topics: seq<Topic>)
    ensures b <= FoldTopics(h, b, topics)
    ensures forall t :: t in topics ==> h.ofTopic(t) <= FoldTopics(h, b, topics)
    decreases |topics|
  {
    if topics != [] {
      FoldTopicsContains(h, b + h.ofTopic(topics[0]), topics[1..]);
    }
  }

  lemma {:induction false} FoldLogsContains(h: Hashing, b: Bloom, logs: seq<LogEntry>)
    ensures b <= FoldLogs(h, b, logs)
    ensures forall e :: e in logs ==> EntryBloom(h, e) <= FoldLogs(h, b, logs)
    decreases |logs|
  {
    if logs != [] {
      FoldLogsContains(h, b + EntryBloom(h, logs[0]), logs[1..]);
    }
  }

  /** The bloom of an entry has the bits of its address and its topics and no others. */
  lemma {:induction false} FoldTopicsIsUnion(h: Hashing, b: Bloom, topics: seq<Topic>, x: nat)
    ensures x in FoldTopics(h, b, topics) <==> x in b || exists t :: t in topics && x in h.ofTopic(t)
    decreases |topics|
  {
    if topics != [] {
      FoldTopicsIsUnion(h, b + h.ofTopic(topics[0]), topics[1..], x);
      assert topics == [topics[0]] + topics[1..];
    }
  }

  /** That of a receipt has the bits of its entries and no others. */
  lemma {:induction false} FoldLogsIsUnion(h: Hashing, b: Bloom, logs: seq<LogEntry>, x: nat)
    ensures x in FoldLogs(h, b, logs) <==> x in b || exists e :: e in logs && x in EntryBloom(h, e)
    decreases |logs|
  {
    if logs != [] {
      FoldLogsIsUnion(h, b + EntryBloom(h, logs[0]), logs[1..], x);
      assert logs == [logs[0]] + logs[1..];
    }
  }

  // ---------------------------------------------------------------------
  // Filters
  // ---------------------------------------------------------------------

  predicate SlotMatches(slot: Option<seq<Topic>>, e: LogEntry, i: nat) {
    slot.Some? && slot.value != [] ==> i < |e.topics| && e.topics[i] in slot.value
  }

  predicate Matches(f: Filter, e: LogEntry) {
    && (f.addresses.Some? && f.addresses.value != [] ==> e.address in f.addresses.value)
    && forall i :: 0 <= i < |f.topics| ==> SlotMatches(f.topics[i], e, i)
  }

  /** The laws of a slot: a free one lets everything pass, one topic asks for itself at
      its place, and a list of alternatives is their disjunction. */
  lemma SlotLaws(a: seq<Topic>, b: seq<Topic>, t: Topic, e: LogEntry, i: nat)
    ensures SlotMatches(None, e, i)
    ensures SlotMatches(Some([t]), e, i) <==> i < |e.topics| && e.topics[i] == t
    ensures a != [] && b != [] ==>
              (SlotMatches(Some(a + b), e, i) <==> SlotMatches(Some(a), e, i) || SlotMatches(Some(b), e, i))
  {
  }

  /** The filter with other alternatives in slot `i`. */
  function WithSlot(f: Filter, i: nat, slot: Option<seq<Topic>>): Filter
    requires i < |f.topics|
  {
    f.(topics := f.topics[i := slot])
  }

  function WithAddresses(f: Filter, addresses: Option<seq<Address>>): Filter {
    f.(addresses := addresses)
  }

  /** A slot constrains the entry by itself: with one topic in it a filter matches what it
      matches with the slot free and has that topic there; alternatives are a disjunction. */
  lemma TopicLaws(f: Filter, i: nat, a: seq<Topic>, b: seq<Topic>, t: Topic, e: LogEntry)
    requires i < |f.topics|
    ensures Matches(WithSlot(f, i, Some([t])), e) <==>
            Matches(WithSlot(f, i, None), e) && i < |e.topics| && e.topics[i] == t
    ensures a != [] && b != [] ==>
              (Matches(WithSlot(f, i, Some(a + b)), e) <==>
               Matches(WithSlot(f, i, Some(a)), e) || Matches(WithSlot(f, i, Some(b)), e))
  {
    forall slot
      ensures Matches(WithSlot(f, i, slot), e) <==> Matches(WithSlot(f, i, None), e) && SlotMatches(slot, e, i)
    {
      SlotConjunct(f, i, slot, e);
    }
    SlotLaws(a, b, t, e, i);
  }

  lemma SlotConjunct(f: Filter, i: nat, slot: Option<seq<Topic>>, e: LogEntry)
    requires i < |f.topics|
    ensures Matches(WithSlot(f, i, slot), e) <==> Matches(WithSlot(f, i, None), e) && SlotMatches(slot, e, i)
  {
    var g, g0 := WithSlot(f, i, slot), WithSlot(f, i, None);
    assert g.topics[i] == slot;
    assert forall j :: 0 <= j < |f.topics| && j != i ==> g.topics[j] == g0.topics[j];
  }

  /** The same for addresses. */
  lemma AddressLaws(f: Filter, a: seq<Address>, b: seq<Address>, x: Address, e: LogEntry)
    ensures Matches(WithAddresses(f, Some([x])), e) <==> Matches(WithAddresses(f, None), e) && e.address == x
    ensures a != [] && b != [] ==>
              (Matches(WithAddresses(f, Some(a + b)), e) <==>
               Matches(WithAddresses(f, Some(a)), e) || Matches(WithAddresses(f, Some(b)), e))
  {
  }

  /** A filter that asks for nothing matches everything. */
  lemma FreeFilterMatches(f: Filter, e: LogEntry)
    requires f.addresses.None? && forall i :: 0 <= i < |f.topics| ==> f.topics[i].None?
    ensures Matches(f, e)
  {
  }

  /** One bloom per address, or the empty bloom if any address will do. */
  function AddressBlooms(h: Hashing, f: Filter): seq<Bloom> {
    if f.addresses.Some? && f.addresses.value != []
    then seq(|f.addresses.value|, i requires 0 <= i < |f.addresses.value| => h.ofAddress(f.addresses.value[i]))
    else [{}]
  }

  /** Every bloom combined with every topic. */
  function Widen(h: Hashing, blooms: seq<Bloom>, topics: seq<Topic>): seq<Bloom> {
    if blooms == [] then []
    else seq(|topics|, i requires 0 <= i < |topics| => blooms[0] + h.ofTopic(topics[i])) + Widen(h, blooms[1..], topics)
  }

  function FoldSlots(h: Hashing, blooms: seq<Bloom>, slots: seq<Option<seq<Topic>>>): seq<Bloom>
    decreases |slots|
  {
    if slots == [] then blooms
    else FoldSlots(h, if slots[0].None? then blooms else Widen(h, blooms, slots[0].value), slots[1..])
  }

  function BloomPossibilities(h: Hashing, f: Filter): seq<Bloom> {
    FoldSlots(h, AddressBlooms(h, f), f.topics)
  }

  /** No slot lists zero topics. */
  predicate NoEmptySlot(slots: seq<Option<seq<Topic>>>) {
    forall i :: 0 <= i < |slots| ==> slots[i] != Some([])
  }

  lemma {:induction false} Widened(h: Hashing, blooms: seq<Bloom>, topics: seq<Topic>, b: Bloom, t: Topic)
    requires b in blooms && t in topics
    ensures b + h.ofTopic(t) in Widen(h, blooms, topics)
    decreases |blooms|
  {
    if b == blooms[0] {
      var first := seq(|topics|, i requires 0 <= i < |topics| => blooms[0] + h.ofTopic(topics[i]));
      var i :| 0 <= i < |topics| && topics[i] == t;
      assert first[i] == b + h.ofTopic(t);
      assert Widen(h, blooms, topics)[i] == first[i];
    } else {
      Widened(h, blooms[1..], topics, b, t);
    }
  }

  /** A possibility contained in `whole` survives every slot the entry matches. */
  lemma {:induction false} SlotsKeepPossibility(h: Hashing, blooms: seq<Bloom>, slots: seq<Option<seq<Topic>>>,
                                                e: LogEntry, k: nat, b: Bloom)
    requires NoEmptySlot(slots)
    requires forall i :: 0 <= i < |slots| ==> SlotMatches(slots[i], e, k + i)
    requires b in blooms && b <= EntryBloom(h, e)
    ensures exists p :: p in FoldSlots(h, blooms, slots) && p <= EntryBloom(h, e)
    decreases |slots|
  {
    if slots != [] {
      var rest := slots[1..];
      assert forall i :: 0 <= i < |rest| ==> rest[i] == slots[i + 1] && k + 1 + i == k + (i + 1);
      assert forall i :: 0 <= i < |rest| ==> SlotMatches(rest[i], e, k + 1 + i);
      if slots[0].None? {
        SlotsKeepPossibility(h, blooms, rest, e, k + 1, b);
      } else {
        assert SlotMatches(slots[0], e, k + 0);
        var t := e.topics[k];
        Widened(h, blooms, slots[0].value, b, t);
        FoldTopicsContains(h, h.ofAddress(e.address), e.topics);
        SlotsKeepPossibility(h, Widen(h, blooms, slots[0].value), rest, e, k + 1, b + h.ofTopic(t));
      }
    }
  }

  /** No false negatives: an entry that a filter matches contains one of the
      filter's possibilities, provided no slot of the filter is an empty list. */
  lemma NoFalseNegatives(h: Hashing, f: Filter, e: LogEntry)
    requires NoEmptySlot(f.topics) && Matches(f, e)
    ensures exists p :: p in BloomPossibilities(h, f) && p <= EntryBloom(h, e)
  {
    FoldTopicsContains(h, h.ofAddress(e.address), e.topics);
    var b := if f.addresses.Some? && f.addresses.value != [] then h.ofAddress(e.address) else {};
    if f.addresses.Some? && f.addresses.value != [] {
      var i :| 0 <= i < |f.addresses.value| && f.addresses.value[i] == e.address;
      assert AddressBlooms(h, f)[i] == b;
    } else {
      assert AddressBlooms(h, f)[0] == b;
    }
    SlotsKeepPossibility(h, AddressBlooms(h, f), f.topics, e, 0, b);
  }

  /** Every possibility asks for one of the addresses and one of the topics of each slot,
      so a block is not preselected without them. */
  lemma PossibilitiesSelect(h: Hashing, f: Filter, p: Bloom)
    requires p in BloomPossibilities(h, f)
    ensures f.addresses.Some? && f.addresses.value != [] ==>
              exists a :: a in f.addresses.value && h.ofAddress(a) <= p
    ensures forall i :: 0 <= i < |f.topics| && f.topics[i].Some? ==> AsksForOne(h, f.topics[i].value, p)
  {
    FoldedContain(h, AddressBlooms(h, f), f.topics, p);
  }

  ghost predicate AsksForOne(h: Hashing, topics: seq<Topic>, p: Bloom) {
    exists t :: t in topics && h.ofTopic(t) <= p
  }

  lemma {:induction false} FoldedContain(h: Hashing, blooms: seq<Bloom>, slots: seq<Option<seq<Topic>>>, p: Bloom)
    requires p in FoldSlots(h, blooms, slots)
    ensures exists b :: b in blooms && b <= p
    ensures forall i :: 0 <= i < |slots| && slots[i].Some? ==> AsksForOne(h, slots[i].value, p)
    decreases |slots|
  {
    if slots == [] {
      assert p in blooms && p <= p;
    } else {
      var next := if slots[0].None? then blooms else Widen(h, blooms, slots[0].value);
      FoldedContain(h, next, slots[1..], p);
      var b :| b in next && b <= p;
      if slots[0].Some? {
        var c, t := WidenedFrom(h, blooms, slots[0].value, b);
        assert c <= p && h.ofTopic(t) <= p;
      }
      assert forall i :: 1 <= i < |slots| ==> slots[i] == slots[1..][i - 1];
    }
  }

  lemma {:induction false} WidenedFrom(h: Hashing, blooms: seq<Bloom>, topics: seq<Topic>, b: Bloom)
    returns (c: Bloom, t: Topic)
    requires b in Widen(h, blooms, topics)
    ensures c in blooms && t in topics && b == c + h.ofTopic(t)
    decreases |blooms|
  {
    var first := seq(|topics|, i requires 0 <= i < |topics| => blooms[0] + h.ofTopic(topics[i]));
    if b in first {
      var i :| 0 <= i < |first| && first[i] == b;
      c, t := blooms[0], topics[i];
    } else {
      c, t := WidenedFrom(h, blooms[1..], topics, b);
    }
  }

  /** There are no possibilities at all exactly when some slot is an empty list -
      which `Matches` takes for a free slot. */
  lemma NoPossibilities(h: Hashing, f: Filter)
    ensures BloomPossibilities(h, f) == [] <==> !NoEmptySlot(f.topics)
  {
    FoldedAway(h, AddressBlooms(h, f), f.topics);
  }

  lemma {:induction false} FoldedAway(h: Hashing, blooms: seq<Bloom>, slots: seq<Option<seq<Topic>>>)
    ensures FoldSlots(h, blooms, slots) == [] <==> blooms == [] || !NoEmptySlot(slots)
    decreases |slots|
  {
    if slots != [] {
      var next := if slots[0].None? then blooms else Widen(h, blooms, slots[0].value);
      FoldedAway(h, next, slots[1..]);
      if slots[0].Some? {
        WidenedAway(h, blooms, slots[0].value);
      }
      assert NoEmptySlot(slots) <==> slots[0] != Some([]) && NoEmptySlot(slots[1..]);
    }
  }

  lemma {:induction false} WidenedAway(h: Hashing, blooms: seq<Bloom>, topics: seq<Topic>)
    ensures Widen(h, blooms, topics) == [] <==> blooms == [] || topics == []
    decreases |blooms|
  {
    if blooms != [] {
      WidenedAway(h, blooms[1..], topics);
    }
  }
}
