/**
 * Variable sets: the plain JavaScript objects that the build scripts use as
 * string dictionaries from a CSS variable name to its value. Keys keep their
 * insertion order; assigning to a key that is already present (`obj[k] = v`,
 * `Object.assign`, object spread) replaces its value and leaves the key where
 * it was.
 */
module VarSets {

  /** An object with string keys: `names` in insertion order and `values`. */
  datatype VarSet = VarSet(names: seq<string>, values: map<string, string>)

  /** `{}` */
  const Empty: VarSet := VarSet([], map[])

  /** Every key occurs once in `names`, and `names` and `values` agree on the keys. */
  ghost predicate WellFormed(s: VarSet) {
    && (forall i, j :: 0 <= i < j < |s.names| ==> s.names[i] != s.names[j])
    && (forall n :: n in s.names <==> n in s.values)
  }

  lemma EmptyWellFormed()
    ensures WellFormed(Empty)
  {
  }

  /** Distinct first components. */
  ghost predicate DistinctNames(w: seq<(string, string)>) {
    forall i, j :: 0 <= i < j < |w| ==> w[i].0 != w[j].0
  }

  /** The names of a list of (name, value) pairs, in order. */
  function NamesOf(w: seq<(string, string)>): (ns: seq<string>)
    ensures |ns| == |w|
    ensures forall i :: 0 <= i < |w| ==> ns[i] == w[i].0
  {
    seq(|w|, i requires 0 <= i < |w| => w[i].0)
  }

  /** The index of the first occurrence of `x` in `s`. */
  function FirstIndex(s: seq<string>, x: string): (k: nat)
    requires x in s
    ensures k < |s| && s[k] == x
    ensures forall j :: 0 <= j < k ==> s[j] != x
  {
    if s[0] == x then 0 else 1 + FirstIndex(s[1..], x)
  }

  /**
   * `s[name] = value`: a new key goes to the end, a present key keeps its
   * position and takes the new value, and no other key changes.
   */
  function Put(s: VarSet, name: string, value: string): (r: VarSet)
    ensures WellFormed(s) ==> WellFormed(r)
    ensures name in r.values && r.values[name] == value
    ensures forall n :: n != name ==> (n in r.values <==> n in s.values)
    ensures forall n :: n != name && n in s.values ==> r.values[n] == s.values[n]
    ensures name in s.values ==> r.names == s.names
    ensures name !in s.values ==> r.names == s.names + [name]
  {
    VarSet(if name in s.values then s.names else s.names + [name], s.values[name := value])
  }

  /** The object after assigning every (name, value) of `writes`, in order. */
  function PutAll(s: VarSet, writes: seq<(string, string)>): (r: VarSet)
    ensures WellFormed(s) ==> WellFormed(r)
    decreases |writes|
  {
    if writes == [] then s
    else Put(PutAll(s, writes[..|writes| - 1]), writes[|writes| - 1].0, writes[|writes| - 1].1)
  }

  /** `Object.entries(s)`: the (name, value) pairs in insertion order. */
  function Entries(s: VarSet): (es: seq<(string, string)>)
    requires WellFormed(s)
    ensures |es| == |s.names|
    ensures forall i :: 0 <= i < |es| ==> es[i].0 == s.names[i] && es[i].1 == s.values[s.names[i]]
    ensures DistinctNames(es)
  {
    seq(|s.names|, i requires 0 <= i < |s.names| => (s.names[i], s.values[s.names[i]]))
  }

  /** `{...sets[0], ...sets[1], ..., ...sets[|sets| - 1]}` */
  function Spread(sets: seq<VarSet>): (r: VarSet)
    requires forall k :: 0 <= k < |sets| ==> WellFormed(sets[k])
    ensures WellFormed(r)
  {
    if sets == [] then Empty
    else PutAll(Spread(sets[..|sets| - 1]), Entries(sets[|sets| - 1]))
  }

  /** The entries of all `sets`, one set after the other. */
  function ConcatEntries(sets: seq<VarSet>): (w: seq<(string, string)>)
    requires forall k :: 0 <= k < |sets| ==> WellFormed(sets[k])
  {
    if sets == [] then [] else ConcatEntries(sets[..|sets| - 1]) + Entries(sets[|sets| - 1])
  }

  /** The write logs `ws`, one after the other. */
  function Concat(ws: seq<seq<(string, string)>>): seq<(string, string)> {
    if ws == [] then [] else Concat(ws[..|ws| - 1]) + ws[|ws| - 1]
  }

  /** The last element of a concatenation and what comes before it. */
  lemma ConcatInit<T>(a: seq<T>, b: seq<T>)
    requires b != []
    ensures (a + b)[..|a + b| - 1] == a + b[..|b| - 1] && (a + b)[|a + b| - 1] == b[|b| - 1]
  {
  }

  /** Assigning two lists of writes one after the other is assigning their concatenation. */
  lemma {:induction false} PutAllConcat(s: VarSet, w1: seq<(string, string)>, w2: seq<(string, string)>)
    ensures PutAll(s, w1 + w2) == PutAll(PutAll(s, w1), w2)
    decreases |w2|
  {
    if w2 == [] {
      assert w1 + w2 == w1;
    } else {
      var w2' := w2[..|w2| - 1];
      var (k, v) := w2[|w2| - 1];
      ConcatInit(w1, w2);
      PutAllConcat(s, w1, w2');
      calc {
        PutAll(s, w1 + w2);
        Put(PutAll(s, w1 + w2'), k, v);
        Put(PutAll(PutAll(s, w1), w2'), k, v);
        PutAll(PutAll(s, w1), w2);
      }
    }
  }

  /** A single write is one assignment. */
  lemma PutAllSingle(s: VarSet, n: string, v: string)
    ensures PutAll(s, [(n, v)]) == Put(s, n, v)
  {
    assert [(n, v)][..0] == [];
  }

  /** After the writes, the keys are the old keys and the written names. */
  lemma {:induction false} PutAllKeys(s: VarSet, w: seq<(string, string)>, n: string)
    ensures n in PutAll(s, w).values <==> n in s.values || n in NamesOf(w)
    decreases |w|
  {
    if w != [] {
      var w' := w[..|w| - 1];
      PutAllKeys(s, w', n);
      assert NamesOf(w) == NamesOf(w') + [w[|w| - 1].0];
    }
  }

  /** A name that is written takes the value of its last write. */
  lemma {:induction false} PutAllLastWins(s: VarSet, w: seq<(string, string)>, i: nat)
    requires i < |w|
    requires forall j :: i < j < |w| ==> w[j].0 != w[i].0
    ensures w[i].0 in PutAll(s, w).values && PutAll(s, w).values[w[i].0] == w[i].1
    decreases |w|
  {
    if i < |w| - 1 {
      PutAllLastWins(s, w[..|w| - 1], i);
    }
  }

  /** A name that is never written keeps its presence and its value. */
  lemma {:induction false} PutAllUntouched(s: VarSet, w: seq<(string, string)>, n: string)
    requires n !in NamesOf(w)
    ensures n in PutAll(s, w).values <==> n in s.values
    ensures n in s.values ==> PutAll(s, w).values[n] == s.values[n]
    decreases |w|
  {
    if w != [] {
      var w' := w[..|w| - 1];
      assert NamesOf(w) == NamesOf(w') + [w[|w| - 1].0];
      PutAllUntouched(s, w', n);
    }
  }

  lemma FirstIndexAppend(s: seq<string>, y: string, x: string)
    requires x in s
    ensures FirstIndex(s + [y], x) == FirstIndex(s, x)
  {
    var k0 := FirstIndex(s, x);
    assert (s + [y])[k0] == x;
  }

  /**
   * `names` lists keys drawn from `all` in the order of their first
   * occurrence in `all`.
   */
  ghost predicate FirstOccurrenceOrder(names: seq<string>, all: seq<string>) {
    && (forall p :: 0 <= p < |names| ==> names[p] in all)
    && (forall p, q {:trigger FirstIndex(all, names[p]), FirstIndex(all, names[q])} ::
          0 <= p < q < |names| ==> FirstIndex(all, names[p]) < FirstIndex(all, names[q]))
  }

  lemma OrderOfDistinct(names: seq<string>)
    requires forall i, j :: 0 <= i < j < |names| ==> names[i] != names[j]
    ensures FirstOccurrenceOrder(names, names)
  {
    forall p | 0 <= p < |names|
      ensures FirstIndex(names, names[p]) == p
    {
    }
  }

  lemma OrderAppendSource(names: seq<string>, all: seq<string>, k: string)
    requires FirstOccurrenceOrder(names, all)
    ensures FirstOccurrenceOrder(names, all + [k])
  {
    forall p | 0 <= p < |names|
      ensures FirstIndex(all + [k], names[p]) == FirstIndex(all, names[p])
    {
      FirstIndexAppend(all, k, names[p]);
    }
  }

  lemma OrderAppendNew(names: seq<string>, all: seq<string>, k: string)
    requires FirstOccurrenceOrder(names, all) && k !in all
    ensures FirstOccurrenceOrder(names + [k], all + [k])
  {
    OrderAppendSource(names, all, k);
    assert FirstIndex(all + [k], k) == |all|;
  }

  /**
   * The keys after the writes are ordered by their first occurrence among the
   * old keys followed by the written names: old keys keep their positions and
   * each new key sits where it was first written.
   */
  lemma {:induction false} PutAllOrder(s: VarSet, w: seq<(string, string)>)
    requires WellFormed(s)
    ensures FirstOccurrenceOrder(PutAll(s, w).names, s.names + NamesOf(w))
    decreases |w|
  {
    if w == [] {
      assert s.names + NamesOf(w) == s.names;
      OrderOfDistinct(s.names);
    } else {
      var w' := w[..|w| - 1];
      var (k, v) := w[|w| - 1];
      PutAllOrder(s, w');
      NamesOfSnoc(w);
      assert s.names + (NamesOf(w') + [k]) == s.names + NamesOf(w') + [k];
      PutOrder(s, w', k, v);
    }
  }

  lemma NamesOfSnoc(w: seq<(string, string)>)
    requires w != []
    ensures NamesOf(w) == NamesOf(w[..|w| - 1]) + [w[|w| - 1].0]
  {
  }

  /** One more assignment keeps the keys in first-occurrence order. */
  lemma PutOrder(s: VarSet, w: seq<(string, string)>, k: string, v: string)
    requires WellFormed(s)
    requires FirstOccurrenceOrder(PutAll(s, w).names, s.names + NamesOf(w))
    ensures FirstOccurrenceOrder(Put(PutAll(s, w), k, v).names, s.names + NamesOf(w) + [k])
  {
    var r' := PutAll(s, w);
    var all' := s.names + NamesOf(w);
    if k in r'.values {
      OrderAppendSource(r'.names, all', k);
    } else {
      PutAllKeys(s, w, k);
      assert k !in s.names && k !in NamesOf(w);
      assert k !in all';
      OrderAppendNew(r'.names, all', k);
    }
  }

  lemma PutOverwrite(s: VarSet, k: string, a: string, b: string)
    ensures Put(Put(s, k, a), k, b) == Put(s, k, b)
  {
    assert s.values[k := a][k := b] == s.values[k := b];
  }

  lemma PutCommute(s: VarSet, k: string, v: string, l: string, u: string)
    requires k != l && k in s.values
    ensures Put(Put(s, k, v), l, u) == Put(Put(s, l, u), k, v)
  {
    assert s.values[k := v][l := u] == s.values[l := u][k := v];
  }

  /** Overwriting one write of a list with distinct names is overwriting after the list. */
  lemma {:induction false} PutAllReplace(s: VarSet, e: seq<(string, string)>, idx: nat, v: string)
    requires idx < |e| && DistinctNames(e)
    ensures PutAll(s, e[idx := (e[idx].0, v)]) == Put(PutAll(s, e), e[idx].0, v)
    decreases |e|
  {
    var n := |e|;
    var k := e[idx].0;
    var e' := e[..n - 1];
    var last := e[n - 1];
    var f := e[idx := (k, v)];
    if idx == n - 1 {
      assert f[..n - 1] == e';
      PutOverwrite(PutAll(s, e'), k, last.1, v);
    } else {
      assert f[..n - 1] == e'[idx := (k, v)];
      assert f[n - 1] == last;
      PutAllReplace(s, e', idx, v);
      PutAllKeys(s, e', k);
      assert k in NamesOf(e');
      PutCommute(PutAll(s, e'), k, v, last.0, last.1);
    }
  }

  lemma EntriesPutNew(d: VarSet, k: string, v: string)
    requires WellFormed(d) && k !in d.values
    ensures Entries(Put(d, k, v)) == Entries(d) + [(k, v)]
  {
  }

  lemma EntriesPutOld(d: VarSet, k: string, v: string) returns (idx: nat)
    requires WellFormed(d) && k in d.values
    ensures idx < |Entries(d)| && Entries(d)[idx].0 == k
    ensures Entries(Put(d, k, v)) == Entries(d)[idx := (k, v)]
  {
    idx := FirstIndex(d.names, k);
  }

  /**
   * `Object.assign(target, flattened)` where `flattened` was filled from `{}`
   * by the writes `w` leaves `target` as if `w` had been written into it directly.
   */
  lemma {:induction false} AssignFresh(s: VarSet, w: seq<(string, string)>)
    ensures PutAll(s, Entries(PutAll(Empty, w))) == PutAll(s, w)
    decreases |w|
  {
    if w != [] {
      var w' := w[..|w| - 1];
      var (k, v) := w[|w| - 1];
      var d' := PutAll(Empty, w');
      AssignFresh(s, w');
      if k !in d'.values {
        EntriesPutNew(d', k, v);
        assert Entries(Put(d', k, v))[..|Entries(d')|] == Entries(d');
      } else {
        var idx := EntriesPutOld(d', k, v);
        PutAllReplace(s, Entries(d'), idx, v);
      }
    }
  }

  /** Spreading objects copies all their entries, one object after the other. */
  lemma {:induction false} SpreadIsPutAll(sets: seq<VarSet>)
    requires forall k :: 0 <= k < |sets| ==> WellFormed(sets[k])
    ensures Spread(sets) == PutAll(Empty, ConcatEntries(sets))
  {
    if sets != [] {
      var sets' := sets[..|sets| - 1];
      SpreadIsPutAll(sets');
      PutAllConcat(Empty, ConcatEntries(sets'), Entries(sets[|sets| - 1]));
    }
  }

  /**
   * Spreading objects that were each filled from `{}` by the write logs `ws`
   * gives the object filled from `{}` by all the logs in order: one shared
   * accumulator threaded through every log.
   */
  lemma {:induction false} SpreadOfFresh(ws: seq<seq<(string, string)>>)
    ensures Spread(seq(|ws|, k requires 0 <= k < |ws| => PutAll(Empty, ws[k]))) == PutAll(Empty, Concat(ws))
  {
    var sets := seq(|ws|, k requires 0 <= k < |ws| => PutAll(Empty, ws[k]));
    if ws != [] {
      var ws' := ws[..|ws| - 1];
      var sets' := seq(|ws'|, k requires 0 <= k < |ws'| => PutAll(Empty, ws'[k]));
      assert sets[..|sets| - 1] == sets';
      SpreadOfFresh(ws');
      AssignFresh(Spread(sets'), ws[|ws| - 1]);
      PutAllConcat(Empty, Concat(ws'), ws[|ws| - 1]);
    }
  }

  /**
   * In a spread, a name takes its value from the last object that has it.
   */
  lemma {:induction false} SpreadLastWins(sets: seq<VarSet>, k: nat, n: string)
    requires forall i :: 0 <= i < |sets| ==> WellFormed(sets[i])
    requires k < |sets| && n in sets[k].values
    requires forall i :: k < i < |sets| ==> n !in sets[i].values
    ensures n in Spread(sets).values && Spread(sets).values[n] == sets[k].values[n]
  {
    var last := sets[|sets| - 1];
    var es := Entries(last);
    if k == |sets| - 1 {
      var i := FirstIndex(last.names, n);
      PutAllLastWins(Spread(sets[..|sets| - 1]), es, i);
    } else {
      SpreadLastWins(sets[..|sets| - 1], k, n);
      assert n !in NamesOf(es);
      PutAllUntouched(Spread(sets[..|sets| - 1]), es, n);
    }
  }

  /**
   * The keys of a spread are the keys of its objects, each at the position of
   * its first occurrence across the objects.
   */
  lemma SpreadOrder(sets: seq<VarSet>)
    requires forall k :: 0 <= k < |sets| ==> WellFormed(sets[k])
    ensures FirstOccurrenceOrder(Spread(sets).names, NamesOf(ConcatEntries(sets)))
  {
    SpreadIsPutAll(sets);
    PutAllOrder(Empty, ConcatEntries(sets));
    assert Empty.names + NamesOf(ConcatEntries(sets)) == NamesOf(ConcatEntries(sets));
  }

  /**
   * A JavaScript object used as a mutable dictionary: `result` in the
   * flatteners, filled by assignment and by `Object.assign`.
   */
  class TokenMap {
    var names: seq<string>
    var values: map<string, string>

    function Value(): VarSet
      reads this
    {
      VarSet(names, values)
    }

    ghost predicate Valid()
      reads this
    {
      WellFormed(Value())
    }

    /** `{}` */
    constructor ()
      ensures Valid() && Value() == Empty
    {
      names := [];
      values := map[];
    }

    /** `this[name] = value` */
    method Set(name: string, value: string)
      requires Valid()
      modifies this
      ensures Valid() && Value() == Put(old(Value()), name, value)
    {
      if name !in values {
        names := names + [name];
      }
      values := values[name := value];
    }

    /** `Object.assign(this, source)`: copy the entries of `source` in order. */
    method Assign(source: TokenMap)
      requires Valid() && source.Valid()
      modifies this
      ensures Valid() && Value() == PutAll(old(Value()), Entries(old(source.Value())))
    {
      var es := Entries(source.Value());
      for i := 0 to |es|
        invariant Valid() && Value() == PutAll(old(Value()), es[..i])
      {
        assert es[..i + 1][..i] == es[..i];
        Set(es[i].0, es[i].1);
      }
      assert es[..|es|] == es;
    }
  }
}
