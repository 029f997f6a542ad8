/**
 The list of peers and how a changed configuration updates it in place
 (cita-network/src/connection.rs).
 */
module PeerList {
  import opened Basics

  type Address(==, !new)
  type Stream(==, !new)

  datatype Peer = Peer(id: nat, address: Address, stream: Option<Stream>)

  /** One entry of a configuration. */
  datatype Entry = Entry(id: nat, address: Address)

  function Addresses(peers: seq<Peer>): (r: seq<Address>)
    ensures |r| == |peers|
    ensures forall i :: 0 <= i < |r| ==> r[i] == peers[i].address
  {
    seq(|peers|, i requires 0 <= i < |peers| => peers[i].address)
  }

  function Configured(config: seq<Entry>): (r: seq<Address>)
    ensures |r| == |config|
    ensures forall i :: 0 <= i < |r| ==> r[i] == config[i].address
  {
    seq(|config|, i requires 0 <= i < |config| => config[i].address)
  }

  function InConfig(config: seq<Entry>): Peer -> bool {
    (p: Peer) => p.address in Configured(config)
  }

  /** A peer without a stream for every new address, where it comes up first. */
  function Added(known: seq<Address>, config: seq<Entry>): seq<Peer> {
    if config == [] then []
    else
      var n := |config| - 1;
      var e := config[n];
      if e.address in known || e.address in Configured(config[..n]) then Added(known, config[..n])
      else Added(known, config[..n]) + [Peer(e.id, e.address, None)]
  }

  /** The peers that stay, as they were and in their old order, and then the new ones. */
  function Updated(peers: seq<Peer>, config: seq<Entry>): seq<Peer> {
    Keep(InConfig(config), peers) + Added(Addresses(peers), config)
  }

  // ---------------------------------------------------------------------
  // What an update achieves
  // ---------------------------------------------------------------------

  lemma {:induction false} AddedAddresses(known: seq<Address>, config: seq<Entry>, a: Address)
    ensures a in Addresses(Added(known, config)) <==> a in Configured(config) && a !in known
  {
    if config != [] {
      var n := |config| - 1;
      AddedAddresses(known, config[..n], a);
      var before := Added(known, config[..n]);
      assert Configured(config) == Configured(config[..n]) + [config[n].address];
      var p := Peer(config[n].id, config[n].address, None);
      assert Addresses(before + [p]) == Addresses(before) + [p.address];
    }
  }

  predicate Distinct(addresses: seq<Address>) {
    forall i, j :: 0 <= i < j < |addresses| ==> addresses[i] != addresses[j]
  }

  lemma {:induction false} AddedOnce(known: seq<Address>, config: seq<Entry>)
    ensures Distinct(Addresses(Added(known, config)))
  {
    if config != [] {
      var n := |config| - 1;
      AddedOnce(known, config[..n]);
      AddedAddresses(known, config[..n], config[n].address);
    }
  }

  /** A new peer has the id of the first entry with its address, and no stream yet. */
  lemma {:induction false} AddedFromConfig(known: seq<Address>, config: seq<Entry>, p: Peer)
    requires p in Added(known, config)
    ensures p.stream.None? && FirstEntry(config, p)
  {
    var n := |config| - 1;
    assert config[..n + 1] == config;
    if p in Added(known, config[..n]) {
      AddedFromConfig(known, config[..n], p);
      var i :| 0 <= i < n && config[..n][i] == Entry(p.id, p.address) && p.address !in Configured(config[..n][..i]);
      assert config[i] == Entry(p.id, p.address) && config[..n][..i] == config[..i];
    } else {
      assert config[n] == Entry(p.id, p.address) && p.address !in Configured(config[..n]);
    }
  }

  ghost predicate FirstEntry(config: seq<Entry>, p: Peer) {
    exists i :: 0 <= i < |config| && config[i] == Entry(p.id, p.address) && p.address !in Configured(config[..i])
  }

  /** New peers come in the order of the configuration. */
  lemma {:induction false} AddedInOrder(known: seq<Address>, config: seq<Entry>, n: nat)
    requires n <= |config|
    ensures Added(known, config[..n]) <= Added(known, config)
    decreases |config|
  {
    if n < |config| {
      var m := |config| - 1;
      AddedInOrder(known, config[..m], n);
      assert config[..m][..n] == config[..n];
    } else {
      assert config[..n] == config;
    }
  }

  lemma {:induction false} KeepAll(p: Peer -> bool, peers: seq<Peer>)
    requires forall x :: x in peers ==> p(x)
    ensures Keep(p, peers) == peers
  {
    if peers != [] {
      KeepAll(p, peers[1..]);
      assert peers == [peers[0]] + peers[1..];
    }
  }

  /** After an update the addresses are those of the configuration. */
  lemma UpdatedAddresses(peers: seq<Peer>, config: seq<Entry>, a: Address)
    ensures a in Addresses(Updated(peers, config)) <==> a in Configured(config)
  {
    var p := InConfig(config);
    var kept, added := Keep(p, peers), Added(Addresses(peers), config);
    assert Addresses(kept + added) == Addresses(kept) + Addresses(added);
    AddedAddresses(Addresses(peers), config, a);
    if a in Addresses(kept) {
      var i :| 0 <= i < |kept| && kept[i].address == a;
      KeepMembers(p, peers, kept[i]);
    }
    if a in Configured(config) && a in Addresses(peers) {
      var i :| 0 <= i < |peers| && peers[i].address == a;
      KeepMembers(p, peers, peers[i]);
    }
  }

  lemma {:induction false} KeptOnce(p: Peer -> bool, peers: seq<Peer>)
    requires Distinct(Addresses(peers))
    ensures Distinct(Addresses(Keep(p, peers)))
  {
    if peers != [] {
      var tail := peers[1..];
      assert forall i :: 0 <= i < |tail| ==> Addresses(tail)[i] == Addresses(peers)[i + 1];
      KeptOnce(p, tail);
      forall x | x in Keep(p, tail)
        ensures x.address != peers[0].address
      {
        KeepMembers(p, tail, x);
        var i :| 0 <= i < |tail| && tail[i] == x;
        assert Addresses(peers)[i + 1] == x.address;
      }
    }
  }

  /** A list without repeated addresses stays one, whatever the configuration repeats. */
  lemma UpdatedOnce(peers: seq<Peer>, config: seq<Entry>)
    requires Distinct(Addresses(peers))
    ensures Distinct(Addresses(Updated(peers, config)))
  {
    var p := InConfig(config);
    var kept, added := Keep(p, peers), Added(Addresses(peers), config);
    KeptOnce(p, peers);
    AddedOnce(Addresses(peers), config);
    forall i, j | 0 <= i < |kept| && 0 <= j < |added|
      ensures kept[i].address != added[j].address
    {
      KeepMembers(p, peers, kept[i]);
      var k :| 0 <= k < |peers| && peers[k] == kept[i];
      assert Addresses(peers)[k] == kept[i].address;
      assert added[j].address == Addresses(added)[j];
      AddedAddresses(Addresses(peers), config, added[j].address);
    }
    assert Addresses(kept + added) == Addresses(kept) + Addresses(added);
  }

  lemma {:induction false} NothingAdded(known: seq<Address>, config: seq<Entry>)
    requires forall a :: a in Configured(config) ==> a in known
    ensures Added(known, config) == []
  {
    if config != [] {
      var n := |config| - 1;
      assert Configured(config) == Configured(config[..n]) + [config[n].address];
      assert config[n].address in Configured(config);
      NothingAdded(known, config[..n]);
    }
  }

  /** Updating again with the same configuration changes nothing. */
  lemma UpdateIsIdempotent(peers: seq<Peer>, config: seq<Entry>)
    ensures Updated(Updated(peers, config), config) == Updated(peers, config)
  {
    var r := Updated(peers, config);
    forall x | x in r
      ensures InConfig(config)(x)
    {
      var i :| 0 <= i < |r| && r[i] == x;
      assert Addresses(r)[i] == x.address;
      UpdatedAddresses(peers, config, x.address);
    }
    KeepAll(InConfig(config), r);
    forall a | a in Configured(config)
      ensures a in Addresses(r)
    {
      UpdatedAddresses(peers, config, a);
    }
    NothingAdded(Addresses(r), config);
  }

  // ---------------------------------------------------------------------
  // Removal
  // ---------------------------------------------------------------------

  function Remove<T>(xs: seq<T>, i: nat): seq<T>
    requires i < |xs|
  {
    xs[..i] + xs[i + 1..]
  }

  /** Removing a peer that does not stay does not change which ones do. */
  lemma {:induction false} RemoveKeeps(p: Peer -> bool, peers: seq<Peer>, i: nat)
    requires i < |peers| && !p(peers[i])
    ensures Keep(p, Remove(peers, i)) == Keep(p, peers)
  {
    if i == 0 {
      assert Remove(peers, i) == peers[1..];
    } else {
      RemoveKeeps(p, peers[1..], i - 1);
      assert Remove(peers, i)[0] == peers[0] && Remove(peers, i)[1..] == Remove(peers[1..], i - 1);
    }
  }

  lemma RemoveAligned(peers: seq<Peer>, i: nat)
    requires i < |peers|
    ensures Remove(Addresses(peers), i) == Addresses(Remove(peers, i))
  {
  }

  // ---------------------------------------------------------------------
  // The connection
  // ---------------------------------------------------------------------

  class Connection {
    var peers: seq<Peer>

    constructor (config: Option<seq<Entry>>)
      ensures config.None? ==> peers == []
      ensures config.Some? ==> |peers| == |config.value|
      ensures config.Some? ==> forall i :: 0 <= i < |peers| ==>
                peers[i] == Peer(config.value[i].id, config.value[i].address, None)
    {
      peers := [];
      new;
      if config.Some? {
        for i := 0 to |config.value|
          invariant |peers| == i
          invariant forall j :: 0 <= j < i ==> peers[j] == Peer(config.value[j].id, config.value[j].address, None)
        {
          peers := peers + [Peer(config.value[i].id, config.value[i].address, None)];
        }
      }
    }

    /** The first address that is not configured any more. */
    static method Position(addresses: seq<Address>, configured: seq<Address>) returns (r: Option<nat>)
      ensures r.None? ==> forall i :: 0 <= i < |addresses| ==> addresses[i] in configured
      ensures r.Some? ==> r.value < |addresses| && addresses[r.value] !in configured
      ensures r.Some? ==> forall i :: 0 <= i < r.value ==> addresses[i] in configured
    {
      for i := 0 to |addresses|
        invariant forall j :: 0 <= j < i ==> addresses[j] in configured
      {
        if addresses[i] !in configured {
          return Some(i);
        }
      }
      return None;
    }

    /** Appends a peer for every address not in the list yet. */
    method AddNew(config: seq<Entry>) returns (addresses: seq<Address>, configured: seq<Address>)
      modifies this
      ensures peers == old(peers) + Added(Addresses(old(peers)), config)
      ensures addresses == Addresses(peers) && configured == Configured(config)
    {
      addresses := Addresses(peers);
      configured := [];
      ghost var known := addresses;
      for i := 0 to |config|
        invariant configured == Configured(config[..i])
        invariant peers == old(peers) + Added(known, config[..i])
        invariant addresses == Addresses(peers)
      {
        var a := config[i].address;
        assert config[..i + 1][..i] == config[..i];
        AddedAddresses(known, config[..i], a);
        assert addresses == known + Addresses(Added(known, config[..i]));
        configured := configured + [a];
        if a !in addresses {
          addresses := addresses + [a];
          peers := peers + [Peer(config[i].id, a, None)];
        }
      }
      assert config[..|config|] == config;
    }

    /** Removes the others one by one, from both lists at the same position. */
    method RemoveStale(stale: seq<Address>, configured: seq<Address>, ghost config: seq<Entry>)
      requires stale == Addresses(peers) && configured == Configured(config)
      modifies this
      ensures peers == Keep(InConfig(config), old(peers))
    {
      var addresses := stale;
      ghost var p := InConfig(config);
      while true
        invariant addresses == Addresses(peers)
        invariant Keep(p, peers) == Keep(p, old(peers))
        decreases |peers|
      {
        var index := Position(addresses, configured);
        if index.None? {
          KeepAll(p, peers);
          return;
        }
        RemoveKeeps(p, peers, index.value);
        RemoveAligned(peers, index.value);
        addresses := Remove(addresses, index.value);
        peers := Remove(peers, index.value);
      }
    }

    method Update(config: Option<seq<Entry>>)
      modifies this
      ensures peers == if config.Some? then Updated(old(peers), config.value) else []
    {
      match config {
        case Some(entries) =>
          var addresses, configured := AddNew(entries);
          RemoveStale(addresses, configured, entries);
          AddedStay(old(peers), entries);
        case None =>
          peers := [];
      }
    }
  }

  lemma AddedStay(peers: seq<Peer>, config: seq<Entry>)
    ensures Keep(InConfig(config), peers + Added(Addresses(peers), config)) == Updated(peers, config)
  {
    var p, added := InConfig(config), Added(Addresses(peers), config);
    KeepConcat(p, peers, added);
    forall x | x in added
      ensures p(x)
    {
      var i :| 0 <= i < |added| && added[i] == x;
      assert Addresses(added)[i] == x.address;
      AddedAddresses(Addresses(peers), config, x.address);
    }
    KeepAll(p, added);
  }
}
