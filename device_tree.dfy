/** RemoveRejectedPciDevices: after the hot-plug platform has had its say, every device
    that is not a PCI-to-PCI bridge and that IsPciDeviceRejected reports is unlinked from
    its bridge's child list, at every depth reached through PCI-to-PCI bridges. */
module DeviceTree {

  /** A PCI_IO_DEVICE on a bridge's child list: an identity, whether its header is a
      PCI-to-PCI bridge (IS_PCI_BRIDGE), what IsPciDeviceRejected answers for it, and
      its own ChildList (non-empty only for bridges, including CardBus bridges). */
  datatype Device = Device(id: nat, ppb: bool, rejected: bool, children: seq<Device>)

  /** Whether the walk keeps an entry: PCI-to-PCI bridges always, anything else unless
      rejected. */
  predicate Keep(d: Device)
  {
    d.ppb || !d.rejected
  }

  /** The child list left behind. */
  function Pruned(devs: seq<Device>): (r: seq<Device>)
    ensures |r| <= |devs|
    decreases devs, 1
  {
    if |devs| == 0 then [] else PrunedEntry(devs[0]) + Pruned(devs[1..])
  }

  /** What becomes of one entry: a PCI-to-PCI bridge stays with its own list pruned, a
      rejected entry goes, any other entry stays as it is. */
  function PrunedEntry(d: Device): (r: seq<Device>)
    ensures |r| <= 1
    decreases d, 0
  {
    if d.ppb then [d.(children := Pruned(d.children))]
    else if d.rejected then []
    else [d]
  }

  /** The identities of a list and all the devices below it, each device after its
      children. */
  function AllIds(devs: seq<Device>): (r: seq<nat>)
    decreases devs
  {
    if |devs| == 0 then []
    else AllIds(devs[0].children) + [devs[0].id] + AllIds(devs[1..])
  }

  /** The identities of the devices freed, in order: a rejected device's whole subtree,
      children first (RemoveAllPciDeviceOnBridge, then the device itself). */
  function RemovedIds(devs: seq<Device>): (r: seq<nat>)
    decreases devs, 1
  {
    if |devs| == 0 then [] else RemovedEntry(devs[0]) + RemovedIds(devs[1..])
  }

  /** The identities freed for one entry. */
  function RemovedEntry(d: Device): (r: seq<nat>)
    decreases d, 0
  {
    if d.ppb then RemovedIds(d.children)
    else if d.rejected then AllIds(d.children) + [d.id]
    else []
  }

  /** The identities of the entries of one list. */
  function Ids(devs: seq<Device>): (r: seq<nat>)
    ensures |r| == |devs|
  {
    if |devs| == 0 then [] else [devs[0].id] + Ids(devs[1..])
  }

  /** Nothing rejected that is not a PCI-to-PCI bridge, at any depth reached through
      PCI-to-PCI bridges. */
  predicate Clean(devs: seq<Device>)
    decreases devs
  {
    forall i :: 0 <= i < |devs| ==>
      (if devs[i].ppb then Clean(devs[i].children) else !devs[i].rejected)
  }

  /** a is b with some entries left out, the rest in their order. */
  predicate Subsequence(a: seq<nat>, b: seq<nat>)
    decreases |b|
  {
    if |a| == 0 then true
    else if |b| == 0 then false
    else if a[0] == b[0] then Subsequence(a[1..], b[1..])
    else Subsequence(a, b[1..])
  }

  /** The walk over the first k + 1 entries is the walk over the first k and then
      entry k. */
  lemma {:induction false} PrunedStep(devs: seq<Device>, k: nat)
    requires k < |devs|
    ensures Pruned(devs[..k + 1]) == Pruned(devs[..k]) + PrunedEntry(devs[k])
    ensures RemovedIds(devs[..k + 1]) == RemovedIds(devs[..k]) + RemovedEntry(devs[k])
    decreases k
  {
    if k > 0 {
      assert devs[..k + 1][1..] == devs[1..][..k];
      assert devs[..k][1..] == devs[1..][..k - 1];
      PrunedStep(devs[1..], k - 1);
    }
  }

  lemma {:induction false} IdsAppend(a: seq<Device>, b: seq<Device>)
    ensures Ids(a + b) == Ids(a) + Ids(b)
    ensures AllIds(a + b) == AllIds(a) + AllIds(b)
    decreases a
  {
    if |a| == 0 {
      assert a + b == b;
    } else {
      var ab := a + b;
      assert ab[0] == a[0] && ab[1..] == a[1..] + b;
      IdsAppend(a[1..], b);
      assert Ids(ab) == [a[0].id] + (Ids(a[1..]) + Ids(b));
      assert AllIds(ab) == AllIds(a[0].children) + [a[0].id] + (AllIds(a[1..]) + AllIds(b));
    }
  }

  lemma CleanAppend(a: seq<Device>, b: seq<Device>)
    requires Clean(a) && Clean(b)
    ensures Clean(a + b)
  {
    forall i | 0 <= i < |a + b|
      ensures if (a + b)[i].ppb then Clean((a + b)[i].children) else !(a + b)[i].rejected
    {
      if i < |a| {
        assert (a + b)[i] == a[i];
      } else {
        assert (a + b)[i] == b[i - |a|];
      }
    }
  }

  /** With hot-plug support on, nothing that is not a PCI-to-PCI bridge and is rejected
      is left, at any depth reached through PCI-to-PCI bridges. */
  lemma {:induction false} PrunedClean(devs: seq<Device>)
    ensures Clean(Pruned(devs))
    decreases devs, 1
  {
    if |devs| > 0 {
      PrunedEntryClean(devs[0]);
      PrunedClean(devs[1..]);
      CleanAppend(PrunedEntry(devs[0]), Pruned(devs[1..]));
    }
  }

  lemma {:induction false} PrunedEntryClean(d: Device)
    ensures Clean(PrunedEntry(d))
    decreases d, 0
  {
    if d.ppb {
      PrunedClean(d.children);
      assert PrunedEntry(d)[0].children == Pruned(d.children);
    }
  }

  lemma {:induction false} SubsequenceTail(a: seq<nat>, b: seq<nat>)
    requires |a| > 0 && Subsequence(a, b)
    ensures Subsequence(a[1..], b)
    decreases |b|, 1
  {
    if a[0] == b[0] {
      SubsequenceDrop(a[1..], b);
    } else {
      SubsequenceTail(a, b[1..]);
      SubsequenceDrop(a[1..], b);
    }
  }

  lemma {:induction false} SubsequenceDrop(a: seq<nat>, b: seq<nat>)
    requires |b| > 0 && Subsequence(a, b[1..])
    ensures Subsequence(a, b)
    decreases |b|, 0
  {
    if |a| > 0 && a[0] == b[0] {
      SubsequenceTail(a, b[1..]);
    }
  }

  /** The entries that survive keep their order. */
  lemma {:induction false} PrunedKeepsOrder(devs: seq<Device>)
    ensures Subsequence(Ids(Pruned(devs)), Ids(devs))
    decreases devs
  {
    if |devs| > 0 {
      var d, rest := devs[0], devs[1..];
      PrunedKeepsOrder(rest);
      IdsAppend(PrunedEntry(d), Pruned(rest));
      assert Ids(devs) == [d.id] + Ids(rest);
      if |PrunedEntry(d)| == 0 {
        assert Ids(Pruned(devs)) == Ids(Pruned(rest));
        SubsequenceDrop(Ids(Pruned(rest)), Ids(devs));
      } else {
        assert Ids(PrunedEntry(d)) == [d.id];
        assert Ids(Pruned(devs))[1..] == Ids(Pruned(rest));
        assert Ids(devs)[1..] == Ids(rest);
      }
    }
  }

  /** Every PCI-to-PCI bridge and every entry that is not rejected survives: bridges are
      only ever recursed into. */
  lemma {:induction false} PrunedKeeps(devs: seq<Device>, i: nat)
    requires i < |devs| && Keep(devs[i])
    ensures devs[i].id in Ids(Pruned(devs))
    decreases devs
  {
    var d, rest := devs[0], devs[1..];
    IdsAppend(PrunedEntry(d), Pruned(rest));
    if i == 0 {
      assert Ids(PrunedEntry(d)) == [d.id];
    } else {
      PrunedKeeps(rest, i - 1);
    }
  }

  /** Every device below the bridge is either still in the tree or freed, exactly
      once. */
  lemma {:induction false} PrunedOrFreed(devs: seq<Device>)
    ensures multiset(AllIds(Pruned(devs))) + multiset(RemovedIds(devs)) == multiset(AllIds(devs))
    decreases devs, 1
  {
    if |devs| > 0 {
      var d, rest := devs[0], devs[1..];
      PrunedEntryOrFreed(d);
      PrunedOrFreed(rest);
      IdsAppend(PrunedEntry(d), Pruned(rest));
      IdsAppend([d], rest);
      assert devs == [d] + rest;
      MultisetSums(AllIds(PrunedEntry(d)), AllIds(Pruned(rest)), RemovedEntry(d), RemovedIds(rest), AllIds([d]), AllIds(rest));
    }
  }

  /** Two pieces that each split a whole into kept and freed split the joined whole. */
  lemma MultisetSums(a1: seq<nat>, a2: seq<nat>, b1: seq<nat>, b2: seq<nat>, c1: seq<nat>, c2: seq<nat>)
    requires multiset(a1) + multiset(b1) == multiset(c1) && multiset(a2) + multiset(b2) == multiset(c2)
    ensures multiset(a1 + a2) + multiset(b1 + b2) == multiset(c1 + c2)
  {
  }

  lemma {:induction false} PrunedEntryOrFreed(d: Device)
    ensures multiset(AllIds(PrunedEntry(d))) + multiset(RemovedEntry(d)) == multiset(AllIds([d]))
    decreases d, 0
  {
    AllIdsOne(d);
    if d.ppb {
      var e := d.(children := Pruned(d.children));
      PrunedOrFreed(d.children);
      AllIdsOne(e);
      assert PrunedEntry(d) == [e];
      assert RemovedEntry(d) == RemovedIds(d.children);
    } else if d.rejected {
      assert AllIds(PrunedEntry(d)) == [];
    } else {
      assert RemovedEntry(d) == [];
    }
  }

  lemma AllIdsOne(d: Device)
    ensures AllIds([d]) == AllIds(d.children) + [d.id]
  {
    assert [d][1..] == [];
  }

  lemma {:induction false} RemovedSplit(devs: seq<Device>, i: nat)
    requires i < |devs|
    ensures RemovedIds(devs) == RemovedIds(devs[..i]) + RemovedEntry(devs[i]) + RemovedIds(devs[i + 1..])
    decreases i
  {
    if i > 0 {
      RemovedSplit(devs[1..], i - 1);
      assert devs[1..][..i - 1] == devs[..i][1..];
      assert devs[1..][i..] == devs[i + 1..];
    }
  }

  /** The log r holds the identities below, then id, from position j. */
  predicate FreedAt(r: seq<nat>, j: nat, below: seq<nat>, id: nat)
  {
    j + |below| < |r| && r[j..j + |below|] == below && r[j + |below|] == id
  }

  /** A rejected entry that is not a PCI-to-PCI bridge, a CardBus bridge say, is freed
      right after all the devices on it. */
  lemma RemovalOrder(devs: seq<Device>, i: nat)
    requires i < |devs| && !devs[i].ppb && devs[i].rejected
    ensures exists j :: FreedAt(RemovedIds(devs), j, AllIds(devs[i].children), devs[i].id)
  {
    RemovedSplit(devs, i);
    assert RemovedEntry(devs[i]) == AllIds(devs[i].children) + [devs[i].id];
    FreedAfter(RemovedIds(devs[..i]), AllIds(devs[i].children), devs[i].id, RemovedIds(devs[i + 1..]));
  }

  lemma FreedAfter(front: seq<nat>, below: seq<nat>, id: nat, tail: seq<nat>)
    ensures FreedAt(front + (below + [id]) + tail, |front|, below, id)
  {
    var r := front + (below + [id]) + tail;
    assert r[|front|..|front| + |below|] == below;
  }

  /** The list edits of one step of the walk, with the current entry at the seam
      between the part already walked and the part still to come: the current entry
      is childList[k], and overwriting or unlinking it leaves the rest in place. */
  lemma Unlinked<T>(childList: seq<T>, list: seq<T>, before: seq<T>, k: nat)
    requires k < |childList| && list == before + childList[k..]
    ensures list[|before|] == childList[k]
    ensures forall y :: list[|before| := y] == before + [y] + childList[k + 1..]
    ensures list[..|before|] + list[|before| + 1..] == before + [] + childList[k + 1..]
    ensures list == before + [childList[k]] + childList[k + 1..]
  {
    assert list[..|before|] == before;
    assert list[|before| + 1..] == childList[k + 1..];
  }

  /** RemoveRejectedPciDevices on one bridge's child list. With hot-plug support off
      nothing changes; otherwise the list is walked front to back, each PCI-to-PCI bridge
      is recursed into, and each other rejected entry is unlinked after the devices on
      it are removed, the walk resuming at the entry after it. */
  method RemoveRejectedPciDevices(hotPlugSupport: bool, childList: seq<Device>)
    returns (list: seq<Device>, freed: seq<nat>)
    ensures hotPlugSupport ==> list == Pruned(childList) && freed == RemovedIds(childList)
    ensures !hotPlugSupport ==> list == childList && freed == []
    decreases childList
  {
    list, freed := childList, [];
    if !hotPlugSupport {
      return;
    }
    var current, k := 0, 0;
    while k < |childList|
      invariant k <= |childList| && current == |Pruned(childList[..k])|
      invariant list == Pruned(childList[..k]) + childList[k..]
      invariant freed == RemovedIds(childList[..k])
    {
      var temp := list[current];
      ghost var before, rest := Pruned(childList[..k]), childList[k + 1..];
      Unlinked(childList, list, before, k);
      PrunedStep(childList, k);
      if temp.ppb {
        var below, gone := RemoveRejectedPciDevices(hotPlugSupport, temp.children);
        list := list[current := temp.(children := below)];
        freed := freed + gone;
        current := current + 1;
      } else if temp.rejected {
        freed := freed + AllIds(temp.children) + [temp.id];
        list := list[..current] + list[current + 1..];
      } else {
        current := current + 1;
      }
      k := k + 1;
    }
    assert childList[..k] == childList;
  }
}
