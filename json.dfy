/** JSON-like trees as the template patcher sees them: dicts, lists and scalars.
    Dict key order plays no part in the patcher (only fixed keys are looked up),
    so a dict is a map. Numbers are never inspected, so they are integers. */
module Json {

  datatype Option<+T> = None | Some(value: T)

  datatype Json =
    | JNull
    | JBool(b: bool)
    | JNum(n: int)
    | JStr(s: string)
    | JArr(items: seq<Json>)
    | JObj(fields: map<string, Json>)
  {
    /** Python's `isinstance(x, (list, dict))`. */
    predicate IsContainer() {
      JArr? || JObj?
    }
  }

  /** One step down a tree: a dict key or a list index. */
  datatype Step = Field(key: string) | Item(index: nat)

  type Path = seq<Step>

  /** The node reached by following `p` from `j`, if every step exists. */
  function Get(j: Json, p: Path): Option<Json>
    decreases p
  {
    if p == [] then Some(j)
    else match (j, p[0])
      case (JObj(m), Field(k)) => if k in m then Get(m[k], p[1..]) else None
      case (JArr(xs), Item(i)) => if i < |xs| then Get(xs[i], p[1..]) else None
      case _ => None
  }

  /** `j` with the node at `p` replaced by `v` (unchanged if `p` does not exist). */
  function Put(j: Json, p: Path, v: Json): Json
    decreases p
  {
    if p == [] then v
    else match (j, p[0])
      case (JObj(m), Field(k)) => if k in m then JObj(m[k := Put(m[k], p[1..], v)]) else j
      case (JArr(xs), Item(i)) => if i < |xs| then JArr(xs[i := Put(xs[i], p[1..], v)]) else j
      case _ => j
  }

  predicate IsPrefix(p: Path, q: Path) {
    |p| <= |q| && q[..|p|] == p
  }

  /** Neither path lies on the other: the two nodes are in disjoint subtrees. */
  predicate Disjoint(p: Path, q: Path) {
    !IsPrefix(p, q) && !IsPrefix(q, p)
  }

  /** `Under(s, ps)` is every path of `ps` with `s` put in front. */
  function Under(s: Step, ps: seq<Path>): (r: seq<Path>)
    ensures |r| == |ps|
    ensures forall i :: 0 <= i < |ps| ==> r[i] == [s] + ps[i]
  {
    seq(|ps|, i requires 0 <= i < |ps| => [s] + ps[i])
  }

  /** Following one step and then `q` is following `[s] + q`. */
  lemma GetCons(j: Json, s: Step, q: Path)
    ensures Get(j, [s] + q) == match Get(j, [s]) case Some(c) => Get(c, q) case None => None
  {
    assert ([s] + q)[0] == s && ([s] + q)[1..] == q;
    assert [s][1..] == [];
  }

  /** After a replacement the new value sits at the path. */
  lemma {:induction false} PutThenGet(j: Json, p: Path, v: Json)
    requires Get(j, p).Some?
    ensures Get(Put(j, p, v), p) == Some(v)
    decreases p
  {
    if p != [] {
      match (j, p[0])
      case (JObj(m), Field(k)) => PutThenGet(m[k], p[1..], v);
      case (JArr(xs), Item(i)) => PutThenGet(xs[i], p[1..], v);
    }
  }

  /** A replacement at `p` leaves every node outside the subtrees on `p` alone. */
  lemma {:induction false} PutFrame(j: Json, p: Path, v: Json, q: Path)
    requires Disjoint(p, q)
    ensures Get(Put(j, p, v), q) == Get(j, q)
    decreases p
  {
    assert p != [] && q != [];
    if p[0] == q[0] {
      assert Disjoint(p[1..], q[1..]);
      match (j, p[0])
      case (JObj(m), Field(k)) =>
        if k in m { PutFrame(m[k], p[1..], v, q[1..]); }
      case (JArr(xs), Item(i)) =>
        if i < |xs| { PutFrame(xs[i], p[1..], v, q[1..]); }
      case _ =>
    }
  }

  /** On an ancestor `q` of `p`, the node is its old self with the
      replacement done below it, at the rest of the path. */
  lemma {:induction false} PutAncestor(j: Json, p: Path, v: Json, q: Path)
    requires Get(j, p).Some? && IsPrefix(q, p)
    ensures Get(j, q).Some?
    ensures Get(Put(j, p, v), q) == Some(Put(Get(j, q).value, p[|q|..], v))
    decreases q
  {
    if q != [] {
      assert p[0] == q[0];
      assert IsPrefix(q[1..], p[1..]) by {
        assert p[1..][..|q| - 1] == p[..|q|][1..];
      }
      assert p[1..][|q| - 1..] == p[|q|..];
      match (j, p[0])
      case (JObj(m), Field(k)) => PutAncestor(m[k], p[1..], v, q[1..]);
      case (JArr(xs), Item(i)) => PutAncestor(xs[i], p[1..], v, q[1..]);
    }
  }
}
