/** A player's voice states (`__mapVoice`, `__unmapVoice` in platform/audio_seqplayer.c): two singly
    linked lists over one pool, and an eight-bit count of the mapped ones. */
module VoiceMapping {
  import opened Words

  const U8 := 256

  class VoiceState {
    var next: VoiceState?
    var channel: int
    var key: int
    var velocity: int

    constructor ()
      ensures next == null
    {
      next, channel, key, velocity := null, 0, 0, 0;
    }
  }

  /** `s` is a list linked by `next`, `own` the set of its nodes. */
  ghost predicate Listed(s: seq<VoiceState>, own: set<VoiceState>)
    reads own
  {
    && |s| == |own|
    && (forall i, j :: 0 <= i < j < |s| ==> s[i] != s[j])
    && (forall i :: 0 <= i < |s| ==> s[i] in own)
    && (forall i :: 0 <= i < |s| - 1 ==> s[i].next == s[i + 1])
    && (|s| > 0 ==> s[|s| - 1].next == null)
  }

  /** `nodes` is the set of the voice states in `states`, which are all different. */
  ghost predicate Pool(states: seq<VoiceState>, nodes: set<VoiceState>) {
    && |nodes| == |states|
    && (forall i, j :: 0 <= i < j < |states| ==> states[i] != states[j])
    && (forall i :: 0 <= i < |states| ==> states[i] in nodes)
  }

  ghost function First(s: seq<VoiceState>): VoiceState? {
    if s == [] then null else s[0]
  }

  ghost function Last(s: seq<VoiceState>): VoiceState? {
    if s == [] then null else s[|s| - 1]
  }

  lemma WithoutFirst(s: seq<VoiceState>, own: set<VoiceState>)
    requires Listed(s, own) && s != []
    ensures Listed(s[1..], own - {s[0]}) && First(s[1..]) == s[0].next
  {}

  lemma NextInList(s: seq<VoiceState>, own: set<VoiceState>, k: nat)
    requires Listed(s, own) && k < |s|
    ensures s[k] in own && s[k].next == if k + 1 < |s| then s[k + 1] else null
  {}

  lemma LastOnce(s: seq<VoiceState>, own: set<VoiceState>, k: nat)
    requires Listed(s, own) && k < |s|
    ensures s[k] == Last(s) <==> k + 1 == |s|
  {}

  method PushFront(v: VoiceState, head: VoiceState?, ghost s: seq<VoiceState>, ghost own: set<VoiceState>)
    requires Listed(s, own) && v !in own && head == First(s)
    modifies v`next
    ensures Listed([v] + s, own + {v})
  {
    v.next := head;
  }

  method PushBack(v: VoiceState, tail: VoiceState?, ghost s: seq<VoiceState>, ghost own: set<VoiceState>)
    requires Listed(s, own) && v !in own && tail == Last(s)
    modifies v`next, own`next
    ensures Listed(s + [v], own + {v})
  {
    v.next := null;
    if tail != null {
      tail.next := v;
    }
  }

  /** Takes the node at position `k` out; `prev` is the one before it, if any. */
  method Cut(cur: VoiceState, prev: VoiceState?, ghost k: nat, ghost s: seq<VoiceState>, ghost own: set<VoiceState>)
    requires Listed(s, own) && k < |s| && cur == s[k] && prev == Last(s[..k])
    modifies own`next
    ensures Listed(s[..k] + s[k + 1..], own - {cur})
    ensures cur.next == old(cur.next)
  {
    assert k + 1 < |s| ==> cur.next == s[k + 1];
    if prev != null {
      prev.next := cur.next;
    }
  }

  class VoiceMap {
    var vAllocHead: VoiceState?
    var vAllocTail: VoiceState?
    var vFreeList: VoiceState?
    var voiceLimit: int
    var mappedVoices: int
    ghost const pool: set<VoiceState>
    ghost var mapped: seq<VoiceState>
    ghost var free: seq<VoiceState>
    ghost var mappedSet: set<VoiceState>
    ghost var freeSet: set<VoiceState>

    /** `inHand` voice states are in neither list. */
    ghost predicate Linked(inHand: nat)
      reads this, pool
    {
      && mappedSet <= pool && freeSet <= pool && mappedSet !! freeSet && |mapped| + |free| + inHand == |pool|
      && Listed(mapped, mappedSet) && vAllocHead == First(mapped) && vAllocTail == Last(mapped)
      && Listed(free, freeSet) && vFreeList == First(free)
    }

    ghost predicate InHand(v: VoiceState)
      reads this
    {
      v in pool && v !in mappedSet && v !in freeSet
    }

    ghost predicate Valid()
      reads this, pool
    {
      Linked(0) && 0 <= voiceLimit < 256 && 0 <= mappedVoices < 256
    }

    /** The count is right. */
    ghost predicate Exact()
      reads this
    {
      mappedVoices == |mapped|
    }

    /** `alCSPNew` on the voice states of its allocation: each goes to the front of the free list. */
    constructor (states: seq<VoiceState>, ghost nodes: set<VoiceState>, voiceLimit: int)
      requires 0 <= voiceLimit < 256 && Pool(states, nodes)
      modifies nodes
      ensures Valid() && Exact() && pool == nodes && mapped == [] && this.voiceLimit == voiceLimit
      ensures |free| == |states| && forall i :: 0 <= i < |states| ==> free[i] == states[|states| - 1 - i]
    {
      vAllocHead, vAllocTail, vFreeList := null, null, null;
      this.voiceLimit, mappedVoices := voiceLimit, 0;
      pool, mapped, free, mappedSet, freeSet := nodes, [], [], {}, {};
      new;
      for i := 0 to |states|
        invariant Linked(|states| - i) && mapped == [] && mappedSet == {}
        invariant this.voiceLimit == voiceLimit && mappedVoices == 0
        invariant |free| == i && forall j :: 0 <= j < i ==> free[j] == states[i - 1 - j]
        invariant forall j :: i <= j < |states| ==> states[j] !in freeSet
      {
        ReleaseFree(states[i], |states| - i);
      }
    }

    /** `set_voice_limit`. */
    method SetVoiceLimit(limit: int)
      requires Valid() && 0 <= limit < 256
      modifies this`voiceLimit
      ensures Valid() && voiceLimit == limit
    {
      voiceLimit := limit;
    }

    /** Takes the first free voice state. */
    method TakeFree() returns (v: VoiceState)
      requires Linked(0) && vFreeList != null
      modifies this`vFreeList, this`free, this`freeSet
      ensures old(free) != [] && v == old(free)[0] && free == old(free)[1..] && InHand(v) && Linked(1)
    {
      v := vFreeList;
      WithoutFirst(free, freeSet);
      vFreeList := v.next;
      free, freeSet := free[1..], freeSet - {v};
    }

    /** Appends a voice state to the mapped list. */
    method AppendMapped(v: VoiceState)
      requires Linked(1) && InHand(v)
      modifies this`vAllocHead, this`vAllocTail, this`mapped, this`mappedSet, mappedSet`next, v`next
      ensures Linked(0) && mapped == old(mapped) + [v]
    {
      hide Listed;
      PushBack(v, vAllocTail, mapped, mappedSet);
      if vAllocTail == null {
        vAllocHead := v;
      }
      vAllocTail := v;
      mapped, mappedSet := mapped + [v], mappedSet + {v};
    }

    /** Puts a voice state at the front of the free list. */
    method ReleaseFree(v: VoiceState, ghost inHand: nat)
      requires inHand > 0 && Linked(inHand) && InHand(v)
      modifies this`vFreeList, this`free, this`freeSet, v`next
      ensures Linked(inHand - 1) && free == [v] + old(free) && freeSet == old(freeSet) + {v}
    {
      hide Listed;
      PushFront(v, vFreeList, free, freeSet);
      vFreeList := v;
      free, freeSet := [v] + free, freeSet + {v};
    }

    /** Takes the mapped voice state at position `k` out; `prev` is the one before it, if any. */
    method CutMapped(cur: VoiceState, prev: VoiceState?, ghost k: nat)
      requires Linked(0) && k < |mapped| && cur == mapped[k] && prev == Last(mapped[..k])
      modifies this`vAllocHead, this`vAllocTail, this`mapped, this`mappedSet, mappedSet`next
      ensures Linked(1) && InHand(cur) && mapped == old(mapped[..k] + mapped[k + 1..])
    {
      hide Listed;
      NextInList(mapped, mappedSet, k);
      LastOnce(mapped, mappedSet, k);
      Cut(cur, prev, k, mapped, mappedSet);
      if prev == null {
        vAllocHead := cur.next;
      }
      if vAllocTail == cur {
        vAllocTail := prev;
      }
      mapped, mappedSet := mapped[..k] + mapped[k + 1..], mappedSet - {cur};
    }

    /** `__mapVoice`. A note is refused exactly when no voice state is free or the count is over the limit.
        An exact count stays exact, unless it is 255 and the limit too: then it wraps to zero. While it is
        exact the limit is exceeded by at most one. */
    method MapVoice(key: int, velocity: int, channel: int) returns (v: VoiceState?)
      requires Valid()
      modifies this, pool
      ensures Valid() && voiceLimit == old(voiceLimit)
      ensures v != null <==> old(free) != [] && old(mappedVoices) <= voiceLimit
      ensures v == null ==> mapped == old(mapped) && free == old(free) && mappedVoices == old(mappedVoices)
      ensures v != null ==> mapped == old(mapped) + [v] && v == old(free)[0] && free == old(free)[1..]
      ensures v != null ==> v.key == key && v.velocity == velocity && v.channel == channel
      ensures forall s :: s in pool && s != v ==>
                s.key == old(s.key) && s.velocity == old(s.velocity) && s.channel == old(s.channel)
      ensures v != null ==> mappedVoices == (old(mappedVoices) + 1) % 256
      ensures old(Exact()) ==> (Exact() <==> !(v != null && old(|mapped|) == 255))
      ensures old(Exact()) && (voiceLimit < 255 || |pool| < 256) ==> Exact()
      ensures old(Exact()) ==> |mapped| <= old(|mapped|) || |mapped| <= voiceLimit + 1
    {
      hide Listed;
      if vFreeList == null || voiceLimit < mappedVoices {
        return null;
      }
      v := TakeFree();
      AppendMapped(v);
      SetVoice(v, key, velocity, channel);
      mappedVoices := (mappedVoices + 1) % U8;
    }

    method SetVoice(v: VoiceState, key: int, velocity: int, channel: int)
      requires Linked(0)
      modifies v`key, v`velocity, v`channel
      ensures Linked(0) && v.key == key && v.velocity == velocity && v.channel == channel
    {
      v.key, v.velocity, v.channel := key, velocity, channel;
    }

    /** `__unmapVoice`. */
    method UnmapVoice(voice: VoiceState)
      requires Valid()
      modifies this, pool`next
      ensures Valid() && voiceLimit == old(voiceLimit)
      ensures voice !in old(mapped) ==> mapped == old(mapped) && free == old(free)
      ensures voice in old(mapped) ==> free == [voice] + old(free)
      ensures mappedVoices ==
              if voice in old(mapped) && old(mappedVoices) > 0 then old(mappedVoices) - 1 else old(mappedVoices)
      ensures old(Exact()) ==> Exact()
      ensures voice in old(mapped) ==>
        exists k :: 0 <= k < |old(mapped)| && old(mapped)[k] == voice &&
                    mapped == old(mapped)[..k] + old(mapped)[k + 1..]
    {
      hide Listed;
      var prev, cur, k := FindMapped(voice);
      if cur == null {
        return;
      }
      CutMapped(cur, prev, k);
      ReleaseFree(cur, 1);
      if mappedVoices != 0 {
        mappedVoices := mappedVoices - 1;
      }
    }

    /** Walks the mapped list to a voice state and the one before it. */
    method FindMapped(voice: VoiceState) returns (prev: VoiceState?, cur: VoiceState?, ghost k: nat)
      requires Linked(0)
      ensures cur == null ==> voice !in mapped
      ensures cur != null ==> cur == voice && k < |mapped| && mapped[k] == voice && prev == Last(mapped[..k])
    {
      prev, cur, k := null, vAllocHead, 0;
      while cur != null && cur != voice
        invariant 0 <= k <= |mapped| && cur == (if k < |mapped| then mapped[k] else null)
        invariant prev == Last(mapped[..k]) && voice !in mapped[..k]
        decreases |mapped| - k
      {
        hide Listed;
        NextInList(mapped, mappedSet, k);
        assert mapped[..k + 1] == mapped[..k] + [mapped[k]];
        prev, cur, k := cur, cur.next, k + 1;
      }
      assert mapped[..|mapped|] == mapped;
    }
  }

  /** What becomes of `notes` notes in a new player that unmaps none. A limit below 255 binds, one voice
      above itself. A limit of 255 never binds: the count wraps instead. */
  method MapNotes(states: seq<VoiceState>, ghost nodes: set<VoiceState>, voiceLimit: int, notes: nat)
    returns (m: VoiceMap)
    requires 0 <= voiceLimit < 256 && Pool(states, nodes)
    modifies nodes
    ensures m.Valid() && m.voiceLimit == voiceLimit && fresh(m) && m.pool == nodes && |m.mapped| + |m.free| == |states|
    ensures voiceLimit < 255 ==> |m.mapped| == Min(notes, Min(voiceLimit + 1, |states|)) && m.Exact()
    ensures voiceLimit == 255 ==> |m.mapped| == Min(notes, |states|) && m.mappedVoices == |m.mapped| % 256
  {
    hide Listed, VoiceMap.Linked;
    m := new VoiceMap(states, nodes, voiceLimit);
    for i := 0 to notes
      invariant m.Valid() && m.voiceLimit == voiceLimit && m.pool == nodes && |m.mapped| + |m.free| == |states|
      invariant voiceLimit < 255 ==> |m.mapped| == Min(i, Min(voiceLimit + 1, |states|)) && m.Exact()
      invariant voiceLimit == 255 ==> |m.mapped| == Min(i, |states|) && m.mappedVoices == |m.mapped| % 256
    {
      var _ := m.MapVoice(0, 0, 0);
    }
  }

  /** Under a limit of 255 the 256th note leaves a count of zero, and one note more than the limit allows for
      is mapped. */
  method LimitNeverBinds(states: seq<VoiceState>, ghost nodes: set<VoiceState>) returns (m: VoiceMap, count: int)
    requires Pool(states, nodes) && |states| > 256
    modifies nodes
    ensures count == 0 && m.Valid() && m.voiceLimit == 255 && |m.mapped| == m.voiceLimit + 2
  {
    m := MapNotes(states, nodes, 255, 256);
    count := m.mappedVoices;
    var _ := m.MapVoice(0, 0, 0);
  }
}
