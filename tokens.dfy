/**
 * Design-token trees and the order in which flattening writes their leaves.
 *
 * The three flatteners walk a decoded JSON object with `Object.entries`: they
 * skip keys that start with `$`, treat an object whose `$value` is defined as
 * a token, recurse into any other non-null object (arrays included) with the
 * dash-joined path as prefix, and ignore everything else. `Flatten` is the
 * list of (name, value) assignments that walk performs, in order; how the
 * assignments land in an object is `VarSets.PutAll`.
 */
module Tokens {
  import opened VarSets

  /**
   * A decoded JSON value, as the flatteners see it.
   *  - Token: an object whose `$value` is defined (any JSON value, `0`, `""`,
   *    `false` and `null` included). `value` is how the scripts print that
   *    `$value`; `others` are its remaining members.
   *  - Group: any other object, or an array (keys "0", "1", ...), with its
   *    members in `Object.entries` order.
   *  - Scalar: a string, number, boolean or null.
   */
  datatype Node =
    | Token(value: string, others: seq<(string, Node)>)
    | Group(entries: seq<(string, Node)>)
    | Scalar

  /** The namespace of the variable names built by the Paragon scripts. */
  const Pgn: string := "--pgn-"

  /**
   * `Object.entries(n)`, leaving out a token's own `$value` member (it starts
   * with `$` and would be skipped anyway).
   */
  function Fields(n: Node): seq<(string, Node)> {
    match n
    case Token(_, others) => others
    case Group(entries) => entries
    case Scalar => []
  }

  /** `key.startsWith('$')` */
  predicate IsMeta(key: string) {
    |key| > 0 && key[0] == '$'
  }

  /** `prefix ? `${prefix}-${key}` : key` */
  function Extend(prefix: string, key: string): string {
    if prefix == "" then key else prefix + "-" + key
  }

  /**
   * The assignments made while visiting the first `count` members of `obj`,
   * each as (`ns` + path name, printed `$value`).
   */
  function Writes(obj: Node, count: nat, ns: string, prefix: string): seq<(string, string)>
    requires count <= |Fields(obj)|
    decreases obj, count
  {
    if count == 0 then []
    else Writes(obj, count - 1, ns, prefix) + MemberWrites(Fields(obj)[count - 1], ns, prefix)
  }

  /**
   * The assignments made for one member: none for a `$` key, one for a
   * token, the whole walk of a group under the extended prefix, none for a
   * scalar.
   */
  function MemberWrites(member: (string, Node), ns: string, prefix: string): seq<(string, string)>
    decreases member.1, |Fields(member.1)| + 1
  {
    var (key, node) := member;
    if IsMeta(key) then []
    else match node
      case Token(v, _) => [(ns + Extend(prefix, key), v)]
      case Group(children) => Writes(node, |children|, ns, Extend(prefix, key))
      case Scalar => []
  }

  /** Every assignment made while flattening `obj` under `prefix`, in order. */
  function Flatten(obj: Node, ns: string, prefix: string): seq<(string, string)> {
    Writes(obj, |Fields(obj)|, ns, prefix)
  }

  /** The name `Extend` builds along a path of keys, starting from `prefix`. */
  function JoinPath(prefix: string, path: seq<string>): string
    decreases |path|
  {
    if path == [] then prefix else JoinPath(Extend(prefix, path[0]), path[1..])
  }

  /** The keys of `path` joined with dashes. */
  function Dash(path: seq<string>): string
    requires path != []
    decreases |path|
  {
    if |path| == 1 then path[0] else path[0] + "-" + Dash(path[1..])
  }

  /**
   * Following `path` from `obj` through its `i`-th member reaches a token
   * whose value is `v`, and no key on the way starts with `$`.
   */
  ghost predicate LeafThrough(obj: Node, i: nat, path: seq<string>, v: string)
    decreases obj, 0
  {
    && i < |Fields(obj)|
    && |path| > 0
    && !IsMeta(path[0])
    && Fields(obj)[i].0 == path[0]
    && match Fields(obj)[i].1
       case Token(w, _) => |path| == 1 && w == v
       case Group(_) => LeafAt(Fields(obj)[i].1, path[1..], v)
       case Scalar => false
  }

  /** `path` leads from `obj` to a token with value `v` through keys without `$`. */
  ghost predicate LeafAt(obj: Node, path: seq<string>, v: string)
    decreases obj, 1
  {
    exists i :: 0 <= i < |Fields(obj)| && LeafThrough(obj, i, path, v)
  }

  /** Every assignment names a reachable token and carries its value. */
  lemma {:induction false} WritesSound(obj: Node, count: nat, ns: string, prefix: string, name: string, v: string)
    returns (path: seq<string>)
    requires count <= |Fields(obj)|
    requires (name, v) in Writes(obj, count, ns, prefix)
    ensures LeafAt(obj, path, v) && name == ns + JoinPath(prefix, path)
    decreases obj, count
  {
    var (key, node) := Fields(obj)[count - 1];
    if (name, v) in Writes(obj, count - 1, ns, prefix) {
      path := WritesSound(obj, count - 1, ns, prefix, name, v);
    } else {
      assert !IsMeta(key);
      match node
      case Token(w, _) =>
        path := [key];
        assert JoinPath(prefix, path) == JoinPath(Extend(prefix, key), []);
        assert LeafThrough(obj, count - 1, path, v);
      case Group(children) =>
        var sub := WritesSound(node, |children|, ns, Extend(prefix, key), name, v);
        path := [key] + sub;
        assert path[1..] == sub;
        assert LeafThrough(obj, count - 1, path, v);
    }
  }

  /** Every reachable token is assigned under its path name. */
  lemma {:induction false} WritesComplete(obj: Node, count: nat, ns: string, prefix: string, path: seq<string>, v: string, i: nat)
    requires i < count <= |Fields(obj)|
    requires LeafThrough(obj, i, path, v)
    ensures (ns + JoinPath(prefix, path), v) in Writes(obj, count, ns, prefix)
    decreases obj, count
  {
    if i < count - 1 {
      WritesComplete(obj, count - 1, ns, prefix, path, v, i);
    } else {
      var (key, node) := Fields(obj)[i];
      match node
      case Token(w, _) =>
        assert path == [key];
        assert JoinPath(prefix, path) == JoinPath(Extend(prefix, key), []);
      case Group(children) =>
        assert LeafAt(node, path[1..], v);
        var j :| 0 <= j < |Fields(node)| && LeafThrough(node, j, path[1..], v);
        WritesComplete(node, |children|, ns, Extend(prefix, key), path[1..], v, j);
    }
  }

  /**
   * Flattening assigns exactly the reachable tokens: a pair is written if and
   * only if some path of keys without `$`, ending at a token with that value,
   * builds that name.
   */
  lemma FlattenLeaves(obj: Node, ns: string, prefix: string, name: string, v: string)
    ensures (name, v) in Flatten(obj, ns, prefix) <==>
      exists path :: LeafAt(obj, path, v) && name == ns + JoinPath(prefix, path)
  {
    if (name, v) in Flatten(obj, ns, prefix) {
      var path := WritesSound(obj, |Fields(obj)|, ns, prefix, name, v);
    }
    if exists path :: LeafAt(obj, path, v) && name == ns + JoinPath(prefix, path) {
      var path :| LeafAt(obj, path, v) && name == ns + JoinPath(prefix, path);
      assert LeafAt(obj, path, v);
      var i :| 0 <= i < |Fields(obj)| && LeafThrough(obj, i, path, v);
      WritesComplete(obj, |Fields(obj)|, ns, prefix, path, v, i);
    }
  }

  /**
   * A path builds its keys joined with dashes, with no leading dash from the
   * top level (empty prefix). Empty keys are kept, except an empty first key
   * at the top level: `prefix ? ... : key` leaves the prefix empty there.
   */
  lemma {:induction false} JoinPathIsDash(prefix: string, path: seq<string>)
    requires path != []
    requires prefix != "" || path[0] != ""
    ensures JoinPath(prefix, path) == if prefix == "" then Dash(path) else prefix + "-" + Dash(path)
    decreases |path|
  {
    var next := Extend(prefix, path[0]);
    assert next != "";
    if |path| > 1 {
      JoinPathIsDash(next, path[1..]);
    }
  }

  /**
   * An empty first key at the top level is dropped, not joined: the path
   * `["", "b"]` builds `b`, while the dash-join is `-b`.
   */
  lemma EmptyTopKeyDropped()
    ensures JoinPath("", ["", "b"]) == "b"
    ensures Dash(["", "b"]) == "-b"
  {
    assert ["", "b"][1..] == ["b"];
    assert ["b"][1..] == [];
  }

  /** The members of `es` whose keys do not start with `$`. */
  function DropMeta(es: seq<(string, Node)>): (r: seq<(string, Node)>)
    ensures forall k :: 0 <= k < |r| ==> !IsMeta(r[k].0)
  {
    if es == [] then []
    else DropMeta(es[..|es| - 1]) + if IsMeta(es[|es| - 1].0) then [] else [es[|es| - 1]]
  }

  /** The first `count` members of a group are flattened as a group of its own. */
  lemma {:induction false} WritesPrefix(es: seq<(string, Node)>, count: nat, ns: string, prefix: string)
    requires count <= |es|
    ensures Writes(Group(es), count, ns, prefix) == Flatten(Group(es[..count]), ns, prefix)
    decreases count
  {
    if count > 0 {
      WritesPrefix(es, count - 1, ns, prefix);
      WritesPrefix(es[..count], count - 1, ns, prefix);
      assert es[..count][..count - 1] == es[..count - 1];
    }
  }

  lemma FlattenSingle(e: (string, Node), ns: string, prefix: string)
    ensures Flatten(Group([e]), ns, prefix) == MemberWrites(e, ns, prefix)
  {
    assert Fields(Group([e])) == [e];
    assert Writes(Group([e]), 0, ns, prefix) == [];
    assert Writes(Group([e]), 1, ns, prefix) == [] + MemberWrites(e, ns, prefix);
  }

  /** Visiting one more member applies that member's assignments after the earlier ones. */
  lemma AssignMember(s: VarSet, obj: Node, i: nat, ns: string, prefix: string)
    requires i < |Fields(obj)|
    ensures PutAll(s, Writes(obj, i + 1, ns, prefix)) ==
      PutAll(PutAll(s, Writes(obj, i, ns, prefix)), MemberWrites(Fields(obj)[i], ns, prefix))
  {
    PutAllConcat(s, Writes(obj, i, ns, prefix), MemberWrites(Fields(obj)[i], ns, prefix));
  }

  /** Flattening a group with one more member appends that member's assignments. */
  lemma FlattenSnoc(es: seq<(string, Node)>, e: (string, Node), ns: string, prefix: string)
    ensures Flatten(Group(es + [e]), ns, prefix) == Flatten(Group(es), ns, prefix) + Flatten(Group([e]), ns, prefix)
  {
    var all := es + [e];
    WritesPrefix(all, |es|, ns, prefix);
    assert all[..|es|] == es;
    assert Fields(Group(all))[|es|] == e;
    FlattenSingle(e, ns, prefix);
  }

  /**
   * Members whose key starts with `$` contribute nothing, whatever lies
   * beneath them: flattening a group equals flattening it without them.
   */
  lemma {:induction false} MetaKeysIgnored(es: seq<(string, Node)>, ns: string, prefix: string)
    ensures Flatten(Group(es), ns, prefix) == Flatten(Group(DropMeta(es)), ns, prefix)
    decreases |es|
  {
    if es != [] {
      var front, last := es[..|es| - 1], es[|es| - 1];
      var d := DropMeta(front);
      assert es == front + [last];
      FlattenSnoc(front, last, ns, prefix);
      MetaKeysIgnored(front, ns, prefix);
      if IsMeta(last.0) {
        FlattenSingle(last, ns, prefix);
        assert DropMeta(es) == d;
      } else {
        assert DropMeta(es) == d + [last];
        FlattenSnoc(d, last, ns, prefix);
      }
    }
  }

  /**
   * An object with a defined `$value` is a leaf whatever that value is: it
   * yields its one assignment, and its other members are never visited.
   */
  lemma TokenIsLeaf(key: string, v: string, others: seq<(string, Node)>, ns: string, prefix: string)
    requires !IsMeta(key)
    ensures Flatten(Group([(key, Token(v, others))]), ns, prefix) == [(ns + Extend(prefix, key), v)]
  {
    FlattenSingle((key, Token(v, others)), ns, prefix);
  }

  /** A string, number, boolean or null member yields nothing. */
  lemma ScalarIgnored(key: string, ns: string, prefix: string)
    ensures Flatten(Group([(key, Scalar)]), ns, prefix) == []
  {
    FlattenSingle((key, Scalar), ns, prefix);
  }
}
