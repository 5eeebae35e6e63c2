/** The synthesiser's three voice lists (platform/audio_synth.c), node by node: they are linked by the same two
    routines as the event queues of platform/audio_event_queue.c. */
module VoiceLists {
  import opened AudioEventQueue

  /** Where a voice's node is linked. */
  datatype Place = Allocated | Free | Lame

  /** A list: its header and then its nodes, and the set of them all. */
  datatype Chain = Chain(nodes: seq<Link>, own: set<Link>)

  class Lists {
    const allocList: Link
    const freeList: Link
    const lameList: Link
    ghost const links: set<Link>   // all nodes, the three headers included
    ghost var alloc: Chain
    ghost var free: Chain
    ghost var lame: Chain

    function Header(place: Place): Link {
      match place case Allocated => allocList case Free => freeList case Lame => lameList
    }

    ghost function At(place: Place): Chain
      reads this
    {
      match place case Allocated => alloc case Free => free case Lame => lame
    }

    /** A list is well linked behind its header. */
    ghost predicate LinkedAt(place: Place)
      reads this, links
    {
      && At(place).own <= links && Chained(At(place).nodes, At(place).own)
      && At(place).nodes[0] == Header(place)
    }

    /** All three are, and they share no node. */
    ghost predicate Valid()
      reads this, links
    {
      && LinkedAt(Allocated) && LinkedAt(Free) && LinkedAt(Lame)
      && alloc.own !! free.own && alloc.own !! lame.own && free.own !! lame.own
    }

    /** Three empty lists over the nodes that will hang in them. */
    constructor (ghost nodes: set<Link>)
      ensures Valid() && |alloc.nodes| == |free.nodes| == |lame.nodes| == 1
      ensures fresh({allocList, freeList, lameList}) && links == nodes + {allocList, freeList, lameList}
      ensures forall n :: n in nodes ==> InHand(n)
    {
      var a := new Link();
      var f := new Link();
      var l := new Link();
      allocList, freeList, lameList := a, f, l;
      links := nodes + {a, f, l};
      alloc, free, lame := Chain([a], {a}), Chain([f], {f}), Chain([l], {l});
    }

    ghost predicate InHand(node: Link)
      reads this
    {
      node in links && node !in alloc.own && node !in free.own && node !in lame.own
    }

    ghost method Put(place: Place, c: Chain)
      modifies this
      ensures At(place) == c && forall other :: other != place ==> At(other) == old(At(other))
    {
      match place {
        case Allocated => alloc := c;
        case Free => free := c;
        case Lame => lame := c;
      }
    }

    /** `alUnlink` of the k-th node of a list. */
    method Unlink(node: Link, ghost place: Place, ghost k: nat)
      requires Valid() && 0 < k < |At(place).nodes| && node == At(place).nodes[k]
      modifies this, links
      ensures Valid() && InHand(node)
      ensures At(place) == Chain(Without(old(At(place)).nodes, k), old(At(place)).own - {node})
      ensures forall other :: other != place ==> At(other) == old(At(other))
    {
      hide Chained, Without, Distinct;
      ghost var c := At(place);
      Held(place, k);
      Own(place);
      UnlinkAt(c.nodes, c.own, k, node);
      WithoutHead(c.nodes, k);
      Put(place, Chain(Without(c.nodes, k), c.own - {node}));
      assert LinkedAt(place);
      match place {
        case Allocated => assert LinkedAt(Free) && LinkedAt(Lame);
        case Free => assert LinkedAt(Allocated) && LinkedAt(Lame);
        case Lame => assert LinkedAt(Allocated) && LinkedAt(Free);
      }
    }

    lemma Own(place: Place)
      requires Valid()
      ensures At(place).own <= links && Chained(At(place).nodes, At(place).own)
      ensures |At(place).nodes| > 0 && At(place).nodes[0] == Header(place)
    {}

    lemma OwnIs()
      ensures forall n :: InHand(n) <==> n in links && forall place :: n !in At(place).own
    {
      forall n, place | InHand(n) ensures n !in At(place).own {}
      forall n | n in links && forall place :: n !in At(place).own ensures InHand(n) {
        assert n !in At(Allocated).own && n !in At(Free).own && n !in At(Lame).own;
      }
    }

    lemma Held(place: Place, k: nat)
      requires Valid() && k < |At(place).nodes|
      ensures At(place).nodes[k] in At(place).own
    {}

    /** `alLink` of a node that is in none of the lists, behind a list's header. */
    method LinkFirst(node: Link, place: Place)
      requires Valid() && InHand(node)
      modifies this, links
      ensures Valid()
      ensures At(place) == Chain(With(old(At(place)).nodes, 1, node), old(At(place)).own + {node})
      ensures forall other :: other != place ==> At(other) == old(At(other))
    {
      hide Chained, With, Distinct;
      ghost var c := At(place);
      Own(place);
      LinkAt(c.nodes, c.own, 0, node, Header(place));
      WithHead(c.nodes, 1, node);
      Put(place, Chain(With(c.nodes, 1, node), c.own + {node}));
      assert LinkedAt(place);
      match place {
        case Allocated => assert LinkedAt(Free) && LinkedAt(Lame);
        case Free => assert LinkedAt(Allocated) && LinkedAt(Lame);
        case Lame => assert LinkedAt(Allocated) && LinkedAt(Free);
      }
    }

    /** The node behind the k-th of a list. */
    method After(node: Link, ghost place: Place, ghost k: nat) returns (next: Link?)
      requires Valid() && k < |At(place).nodes| && node == At(place).nodes[k]
      ensures next == if k + 1 < |At(place).nodes| then At(place).nodes[k + 1] else null
    {
      hide Distinct;
      next := node.next;
    }
  }
}
