/**
 * The order in which the collection cache replays a mod's options
 * (`ModCollection.Cache.AddMod`): groups by descending group priority, the
 * selected option of a single-select group, the set-bit options of a
 * multi-select group by descending option priority, the default option last.
 * `OrderByDescending` is a stable sort; it is modelled by an insertion sort
 * over indices and characterised by `OrderedDesc`.
 */
module ModEmission {
  import opened Common
  import opened Mods

  /** Index `a` comes before index `b`: higher key first, ties by original position. */
  predicate Before(a: nat, b: nat, keys: seq<int>)
    requires a < |keys| && b < |keys|
  {
    keys[a] > keys[b] || (keys[a] == keys[b] && a < b)
  }

  predicate InRange(ids: seq<nat>, keys: seq<int>) {
    forall i :: 0 <= i < |ids| ==> ids[i] < |keys|
  }

  predicate Increasing(ids: seq<nat>) {
    forall i, j :: 0 <= i < j < |ids| ==> ids[i] < ids[j]
  }

  /** Stable descending order by key. */
  predicate OrderedDesc(r: seq<nat>, keys: seq<int>)
    requires InRange(r, keys)
  {
    forall i, j :: 0 <= i < j < |r| ==> Before(r[i], r[j], keys)
  }

  function Insert(x: nat, s: seq<nat>, keys: seq<int>): (r: seq<nat>)
    requires x < |keys| && InRange(s, keys)
    ensures InRange(r, keys)
    ensures multiset(r) == multiset(s) + multiset{x}
    decreases |s|
  {
    if s == [] then [x]
    else if keys[x] > keys[s[0]] then [x] + s
    else
      var rest := Insert(x, s[1..], keys);
      assert s == [s[0]] + s[1..];
      [s[0]] + rest
  }

  /** `OrderByDescending` over the indices `ids`, taken in their given order. */
  function SortDesc(ids: seq<nat>, keys: seq<int>): (r: seq<nat>)
    requires InRange(ids, keys)
    ensures InRange(r, keys)
    ensures multiset(r) == multiset(ids)
    decreases |ids|
  {
    if ids == [] then []
    else
      var last := |ids| - 1;
      assert ids == ids[..last] + [ids[last]];
      Insert(ids[last], SortDesc(ids[..last], keys), keys)
  }

  /** Putting in front an index that comes before every other keeps the order. */
  lemma ConsOrdered(y: nat, t: seq<nat>, keys: seq<int>)
    requires y < |keys| && InRange(t, keys) && OrderedDesc(t, keys)
    requires forall j :: 0 <= j < |t| ==> Before(y, t[j], keys)
    ensures InRange([y] + t, keys) && OrderedDesc([y] + t, keys)
  {
    var r := [y] + t;
    forall i, j | 0 <= i < j < |r|
      ensures Before(r[i], r[j], keys)
    {
      assert r[j] == t[j - 1];
      if i > 0 {
        assert r[i] == t[i - 1];
      }
    }
  }

  lemma {:induction false} InsertOrdered(x: nat, s: seq<nat>, keys: seq<int>)
    requires x < |keys| && InRange(s, keys)
    requires OrderedDesc(s, keys)
    requires forall i :: 0 <= i < |s| ==> s[i] < x
    ensures OrderedDesc(Insert(x, s, keys), keys)
    decreases |s|
  {
    if s == [] {
    } else if keys[x] > keys[s[0]] {
      forall j | 0 <= j < |s|
        ensures Before(x, s[j], keys)
      {
        if j > 0 {
          assert Before(s[0], s[j], keys);
        }
      }
      ConsOrdered(x, s, keys);
    } else {
      var rest := Insert(x, s[1..], keys);
      OrderedTail(s, keys);
      InsertOrdered(x, s[1..], keys);
      InsertedFollowHead(x, s, rest, keys);
      ConsOrdered(s[0], rest, keys);
    }
  }

  /** Every index of `s[1..]` with `x` inserted comes after `s[0]` when `x` does not beat it. */
  lemma InsertedFollowHead(x: nat, s: seq<nat>, rest: seq<nat>, keys: seq<int>)
    requires x < |keys| && s != [] && InRange(s, keys) && OrderedDesc(s, keys)
    requires forall i :: 0 <= i < |s| ==> s[i] < x
    requires keys[x] <= keys[s[0]]
    requires InRange(rest, keys) && multiset(rest) == multiset(s[1..]) + multiset{x}
    ensures forall j :: 0 <= j < |rest| ==> Before(s[0], rest[j], keys)
  {
    forall j | 0 <= j < |rest|
      ensures Before(s[0], rest[j], keys)
    {
      assert rest[j] in multiset(rest);
      if rest[j] != x {
        assert rest[j] in multiset(s[1..]);
        var k :| 0 <= k < |s[1..]| && s[1..][k] == rest[j];
        assert Before(s[0], s[k + 1], keys);
      }
    }
  }

  /** The sort of strictly increasing indices is a stable descending order of them. */
  lemma {:induction false} SortDescOrdered(ids: seq<nat>, keys: seq<int>)
    requires InRange(ids, keys) && Increasing(ids)
    ensures OrderedDesc(SortDesc(ids, keys), keys)
    decreases |ids|
  {
    if ids != [] {
      var last := |ids| - 1;
      var s := SortDesc(ids[..last], keys);
      SortDescOrdered(ids[..last], keys);
      forall i | 0 <= i < |s|
        ensures s[i] < ids[last]
      {
        assert s[i] in multiset(ids[..last]);
        var k :| 0 <= k < last && ids[..last][k] == s[i];
      }
      InsertOrdered(ids[last], s, keys);
    }
  }

  lemma MultisetOfTail(s: seq<nat>)
    requires s != []
    ensures multiset(s[1..]) == multiset(s) - multiset{s[0]}
  {
    assert s == [s[0]] + s[1..];
  }

  lemma OrderedTail(s: seq<nat>, keys: seq<int>)
    requires s != [] && InRange(s, keys) && OrderedDesc(s, keys)
    ensures InRange(s[1..], keys) && OrderedDesc(s[1..], keys)
  {
    forall i, j | 0 <= i < j < |s| - 1
      ensures Before(s[1..][i], s[1..][j], keys)
    {
      assert s[1..][i] == s[i + 1] && s[1..][j] == s[j + 1];
    }
  }

  /** In a stable descending order, the head comes before every other element. */
  lemma HeadFirst(s: seq<nat>, x: nat, keys: seq<int>)
    requires s != [] && InRange(s, keys) && OrderedDesc(s, keys)
    requires x in multiset(s)
    ensures x == s[0] || Before(s[0], x, keys)
  {
    var k :| 0 <= k < |s| && s[k] == x;
    if k > 0 {
      assert Before(s[0], s[k], keys);
    }
  }

  /** Two stable descending orders of the same non-empty multiset start alike. */
  lemma HeadsEqual(a: seq<nat>, b: seq<nat>, keys: seq<int>)
    requires a != [] && b != []
    requires InRange(a, keys) && InRange(b, keys)
    requires multiset(a) == multiset(b)
    requires OrderedDesc(a, keys) && OrderedDesc(b, keys)
    ensures a[0] == b[0]
  {
    assert a[0] in multiset(a);
    assert b[0] in multiset(b);
    HeadFirst(b, a[0], keys);
    HeadFirst(a, b[0], keys);
  }

  /** A stable descending order of a given multiset of indices is unique. */
  lemma {:induction false} OrderedDescUnique(a: seq<nat>, b: seq<nat>, keys: seq<int>)
    requires InRange(a, keys) && InRange(b, keys)
    requires multiset(a) == multiset(b)
    requires OrderedDesc(a, keys) && OrderedDesc(b, keys)
    ensures a == b
    decreases |a|
  {
    assert |a| == |multiset(a)| == |b|;
    if a != [] {
      HeadsEqual(a, b, keys);
      MultisetOfTail(a);
      MultisetOfTail(b);
      OrderedTail(a, keys);
      OrderedTail(b, keys);
      OrderedDescUnique(a[1..], b[1..], keys);
      assert a == [a[0]] + a[1..] && b == [b[0]] + b[1..];
    }
  }

  /** The indices 0 .. n-1. */
  function Range(n: nat): (r: seq<nat>)
    ensures |r| == n
    ensures forall i :: 0 <= i < n ==> r[i] == i
  {
    seq(n, i requires 0 <= i => i as nat)
  }

  /** Bit `i` of a selection word, with the shift count taken modulo 32 as C# does. */
  predicate BitSet(config: bv32, i: nat) {
    config & ((1 as bv32) << (i % 32)) != 0
  }

  /** The indices below `n` whose bit is set in `config`, in increasing order. */
  function SetBits(config: bv32, n: nat): (r: seq<nat>)
    ensures Increasing(r)
    ensures forall i :: 0 <= i < |r| ==> r[i] < n
    ensures forall i :: 0 <= i < n ==> (i in r <==> BitSet(config, i))
  {
    if n == 0 then []
    else
      var prefix := SetBits(config, n - 1);
      if BitSet(config, n - 1) then prefix + [n - 1] else prefix
  }

  function GroupPriorities(gs: seq<ModGroup>): (r: seq<int>)
    ensures |r| == |gs|
    ensures forall i :: 0 <= i < |gs| ==> r[i] == gs[i].priority
  {
    seq(|gs|, i requires 0 <= i < |gs| => gs[i].priority)
  }

  function OptionPriorities(g: ModGroup): (r: seq<int>)
    ensures |r| == |g.options|
    ensures forall i :: 0 <= i < |g.options| ==> r[i] == g.options[i].priority
  {
    seq(|g.options|, i requires 0 <= i < |g.options| => g.options[i].priority)
  }

  /** The order in which the groups of a mod are visited. */
  function GroupOrder(gs: seq<ModGroup>): (r: seq<nat>)
    ensures InRange(r, GroupPriorities(gs))
    ensures OrderedDesc(r, GroupPriorities(gs))
    ensures multiset(r) == multiset(Range(|gs|))
  {
    SortDescOrdered(Range(|gs|), GroupPriorities(gs));
    SortDesc(Range(|gs|), GroupPriorities(gs))
  }

  /** The options of a multi-select group selected by `config`, in visiting order. */
  function MultiOrder(g: ModGroup, config: bv32): (r: seq<nat>)
    ensures InRange(r, OptionPriorities(g))
    ensures OrderedDesc(r, OptionPriorities(g))
    ensures forall i :: 0 <= i < |g.options| ==> (i in r <==> BitSet(config, i))
  {
    var bits := SetBits(config, |g.options|);
    SortDescOrdered(bits, OptionPriorities(g));
    var r := SortDesc(bits, OptionPriorities(g));
    assert forall i :: i in r <==> i in multiset(bits);
    r
  }

  function SubModsAt(g: ModGroup, ids: seq<nat>): (r: seq<SubMod>)
    requires forall i :: 0 <= i < |ids| ==> ids[i] < |g.options|
    ensures |r| == |ids|
    ensures forall i :: 0 <= i < |ids| ==> r[i] == g.options[ids[i]].subMod
  {
    seq(|ids|, i requires 0 <= i < |ids| => g.options[ids[i]].subMod)
  }

  /**
   * The options one group contributes, or None where the source throws: a
   * missing selection word, or a single-select word that is not a valid
   * option index once cast to a signed 32-bit integer.
   */
  function GroupEmission(g: ModGroup, configs: seq<bv32>, gi: nat): (r: Option<seq<SubMod>>)
    ensures r.None? <==>
      |g.options| > 0
      && (gi >= |configs|
          || (g.kind == Single && (configs[gi] as int >= 0x8000_0000 || configs[gi] as int >= |g.options|)))
    ensures r.Some? ==> forall s :: s in r.value ==> exists k :: 0 <= k < |g.options| && g.options[k].subMod == s
  {
    if |g.options| == 0 then Some([])
    else if gi >= |configs| then None
    else
      var config := configs[gi];
      match g.kind
      case Single =>
        var c := config as int;
        if c >= 0x8000_0000 || c >= |g.options| then None
        else Some([g.options[c].subMod])
      case Multi =>
        Some(SubModsAt(g, MultiOrder(g, config)))
  }

  /** What a replay produced: nothing (disabled mod), or the sub-mods added and whether it ran to the end. */
  datatype Emission = Disabled | Emitted(subs: seq<SubMod>, complete: bool)

  /** The groups visited in `order`, stopping at the first one that throws. */
  function GroupsEmission(gs: seq<ModGroup>, configs: seq<bv32>, order: seq<nat>): (r: Emission)
    requires forall i :: 0 <= i < |order| ==> order[i] < |gs|
    ensures r.Emitted?
    decreases |order|
  {
    if order == [] then Emitted([], true)
    else
      match GroupEmission(gs[order[0]], configs, order[0])
      case None => Emitted([], false)
      case Some(head) =>
        var rest := GroupsEmission(gs, configs, order[1..]);
        Emitted(head + rest.subs, rest.complete)
  }

  /**
   * The sub-mods `AddMod` adds for `mod` under the collection's effective
   * settings `coll` (indexed by mod index), in order.
   */
  function EmissionOf(mod: IMod, coll: seq<Option<ModSettings>>): (r: Emission)
    ensures r.Disabled? <==> 0 <= mod.index < |coll| && (coll[mod.index].None? || !coll[mod.index].value.enabled)
    ensures mod.index < 0 ==> r == Emitted([mod.defaultOption], true)
    ensures (r.Emitted? && r.complete) ==> |r.subs| > 0 && r.subs[|r.subs| - 1] == mod.defaultOption
  {
    if mod.index >= 0 then
      if mod.index >= |coll| then Emitted([], false)
      else if coll[mod.index].None? || !coll[mod.index].value.enabled then Disabled
      else
        var s := coll[mod.index].value;
        var order := GroupOrder(mod.groups);
        var gsE := GroupsEmission(mod.groups, s.settings, order);
        if gsE.complete then Emitted(gsE.subs + [mod.defaultOption], true) else gsE
    else Emitted([mod.defaultOption], true)
  }

  /** An installed mod without enabled settings contributes nothing. */
  lemma DisabledEmitsNothing(mod: IMod, coll: seq<Option<ModSettings>>)
    requires 0 <= mod.index < |coll|
    ensures EmissionOf(mod, coll).Disabled? <==> coll[mod.index].None? || !coll[mod.index].value.enabled
  {
  }

  /** A complete replay ends with the default option. */
  lemma DefaultComesLast(mod: IMod, coll: seq<Option<ModSettings>>)
    requires EmissionOf(mod, coll).Emitted? && EmissionOf(mod, coll).complete
    ensures var s := EmissionOf(mod, coll).subs; |s| >= 1 && s[|s| - 1] == mod.defaultOption
  {
  }

  /** A temporary mod (negative index) contributes exactly its default option. */
  lemma TemporaryEmitsDefault(mod: IMod, coll: seq<Option<ModSettings>>)
    requires mod.index < 0
    ensures EmissionOf(mod, coll) == Emitted([mod.defaultOption], true)
  {
  }

  /**
   * Groups are visited in descending priority, equal priorities in group
   * order, and this order is the only one with that property.
   */
  lemma GroupOrderIsStableDescending(gs: seq<ModGroup>, other: seq<nat>)
    requires InRange(other, GroupPriorities(gs))
    requires multiset(other) == multiset(Range(|gs|))
    requires OrderedDesc(other, GroupPriorities(gs))
    ensures other == GroupOrder(gs)
  {
    OrderedDescUnique(other, GroupOrder(gs), GroupPriorities(gs));
  }

  /** Every group index is visited exactly once. */
  lemma GroupOrderVisitsEachOnce(gs: seq<ModGroup>, i: nat)
    requires i < |gs|
    ensures multiset(GroupOrder(gs))[i] == 1
  {
    var r := Range(|gs|);
    assert r == r[..i] + [i] + r[i + 1..];
    assert i !in r[..i] && i !in r[i + 1..];
    assert multiset(r)[i] == multiset(r[..i])[i] + multiset([i])[i] + multiset(r[i + 1..])[i];
  }

  /** A single-select group with a valid selection contributes exactly that option. */
  lemma SingleEmitsSelected(g: ModGroup, configs: seq<bv32>, gi: nat)
    requires g.kind == Single && gi < |configs|
    requires configs[gi] as int < |g.options| && configs[gi] as int < 0x8000_0000
    ensures GroupEmission(g, configs, gi) == Some([g.options[configs[gi] as int].subMod])
  {
  }

  /**
   * A multi-select group contributes an option iff its bit is set, each at
   * most once, higher option priority first and equal priorities in option
   * order.
   */
  lemma MultiEmitsSetBits(g: ModGroup, configs: seq<bv32>, gi: nat)
    requires g.kind == Multi && gi < |configs| && |g.options| > 0
    ensures GroupEmission(g, configs, gi).Some?
    ensures var o := MultiOrder(g, configs[gi]);
      GroupEmission(g, configs, gi).value == SubModsAt(g, o)
      && (forall i :: 0 <= i < |g.options| ==> (i in o <==> BitSet(configs[gi], i)))
      && (forall i, j :: 0 <= i < j < |o| ==>
            g.options[o[i]].priority > g.options[o[j]].priority
            || (g.options[o[i]].priority == g.options[o[j]].priority && o[i] < o[j]))
  {
    var o := MultiOrder(g, configs[gi]);
    forall i, j | 0 <= i < j < |o|
      ensures g.options[o[i]].priority > g.options[o[j]].priority
              || (g.options[o[i]].priority == g.options[o[j]].priority && o[i] < o[j])
    {
      assert Before(o[i], o[j], OptionPriorities(g));
    }
  }

  /** Empty groups contribute nothing and need no selection word. */
  lemma EmptyGroupSkipped(g: ModGroup, configs: seq<bv32>, gi: nat)
    requires |g.options| == 0
    ensures GroupEmission(g, configs, gi) == Some([])
  {
  }
}
