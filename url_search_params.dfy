/** `URLSearchParams` as the modelled components use it: an ordered list of
    name/value pairs in which a name may occur several times. `delete`
    removes every pair of a name; `set` overwrites the first pair of that
    name and removes the others, or appends when there is none; `get`
    reads the first. Percent-encoding is not modelled: `toString` joins
    `name=value` with `&`. */
module UrlSearchParams {
  import opened Optional

  datatype Param = Param(name: string, value: string)

  predicate HasName(ps: seq<Param>, k: string) {
    exists i :: 0 <= i < |ps| && ps[i].name == k
  }

  /** The pairs whose name is not in `ks`, in their original order. */
  function Drop(ps: seq<Param>, ks: set<string>): (r: seq<Param>)
    ensures |r| <= |ps|
    ensures forall i :: 0 <= i < |r| ==> r[i].name !in ks && r[i] in ps
  {
    if ps == [] then []
    else if ps[0].name in ks then Drop(ps[1..], ks)
    else [ps[0]] + Drop(ps[1..], ks)
  }

  /** `get`: the value of the first pair named `k`. */
  function Get(ps: seq<Param>, k: string): (r: Option<string>)
    ensures r.None? <==> !HasName(ps, k)
    ensures r.Some? ==> Param(k, r.value) in ps
  {
    if ps == [] then None
    else if ps[0].name == k then Some(ps[0].value)
    else
      assert forall i :: 0 < i < |ps| ==> ps[i] == ps[1..][i - 1];
      Get(ps[1..], k)
  }

  /** `set` on a list that holds `k`. */
  function SetExisting(ps: seq<Param>, k: string, v: string): seq<Param>
    requires HasName(ps, k)
  {
    if ps[0].name == k then [Param(k, v)] + Drop(ps[1..], {k})
    else
      assert HasName(ps[1..], k) by {
        var i :| 0 <= i < |ps| && ps[i].name == k;
        assert ps[1..][i - 1] == ps[i];
      }
      [ps[0]] + SetExisting(ps[1..], k, v)
  }

  /** `set(k, v)`. */
  function SetParam(ps: seq<Param>, k: string, v: string): seq<Param> {
    if HasName(ps, k) then SetExisting(ps, k, v) else ps + [Param(k, v)]
  }

  /** `toString`, without percent-encoding. */
  function Serialize(ps: seq<Param>): string {
    if ps == [] then ""
    else if |ps| == 1 then ps[0].name + "=" + ps[0].value
    else ps[0].name + "=" + ps[0].value + "&" + Serialize(ps[1..])
  }

  /** The serialised form is empty exactly when there are no pairs. */
  lemma SerializeEmpty(ps: seq<Param>)
    ensures Serialize(ps) == "" <==> ps == []
  {
    if ps != [] {
      assert '=' in Serialize(ps) by {
        if |ps| == 1 {
          assert (ps[0].name + "=" + ps[0].value)[|ps[0].name|] == '=';
        } else {
          var s := ps[0].name + "=" + ps[0].value + "&" + Serialize(ps[1..]);
          assert s[|ps[0].name|] == '=';
        }
      }
    }
  }

  lemma {:induction false} DropAppend(ps: seq<Param>, qs: seq<Param>, ks: set<string>)
    ensures Drop(ps + qs, ks) == Drop(ps, ks) + Drop(qs, ks)
  {
    if ps != [] {
      assert (ps + qs)[1..] == ps[1..] + qs;
      DropAppend(ps[1..], qs, ks);
    } else {
      assert ps + qs == qs;
    }
  }

  lemma {:induction false} DropDrop(ps: seq<Param>, ks: set<string>, ls: set<string>)
    ensures Drop(Drop(ps, ks), ls) == Drop(ps, ks + ls)
  {
    if ps != [] {
      DropDrop(ps[1..], ks, ls);
    }
  }

  /** Dropping names that do not occur changes nothing. */
  lemma {:induction false} DropAbsent(ps: seq<Param>, ks: set<string>)
    requires forall i :: 0 <= i < |ps| ==> ps[i].name !in ks
    ensures Drop(ps, ks) == ps
  {
    if ps != [] {
      DropAbsent(ps[1..], ks);
    }
  }

  lemma DropHasName(ps: seq<Param>, ks: set<string>, k: string)
    requires k in ks
    ensures !HasName(Drop(ps, ks), k)
  {
  }

  /** After dropping a name, the other names still read the same. */
  lemma {:induction false} GetDrop(ps: seq<Param>, ks: set<string>, k: string)
    requires k !in ks
    ensures Get(Drop(ps, ks), k) == Get(ps, k)
  {
    if ps != [] {
      GetDrop(ps[1..], ks, k);
    }
  }

  /** Reading a concatenation: the left part wins when it holds the name. */
  lemma {:induction false} GetAppend(ps: seq<Param>, qs: seq<Param>, k: string)
    ensures Get(ps + qs, k) == if HasName(ps, k) then Get(ps, k) else Get(qs, k)
  {
    if ps != [] {
      assert (ps + qs)[1..] == ps[1..] + qs;
      GetAppend(ps[1..], qs, k);
      if ps[0].name != k {
        assert HasName(ps, k) ==> HasName(ps[1..], k) by {
          if HasName(ps, k) {
            var i :| 0 <= i < |ps| && ps[i].name == k;
            assert ps[1..][i - 1] == ps[i];
          }
        }
      }
    } else {
      assert ps + qs == qs;
    }
  }

  lemma GetSkip(ps: seq<Param>, qs: seq<Param>, k: string)
    requires !HasName(ps, k)
    ensures Get(ps + qs, k) == Get(qs, k)
  {
    GetAppend(ps, qs, k);
  }

  lemma GetKeep(ps: seq<Param>, qs: seq<Param>, k: string)
    requires !HasName(qs, k)
    ensures Get(ps + qs, k) == Get(ps, k)
  {
    GetAppend(ps, qs, k);
  }

  /** Dropping a set that names every pair leaves nothing. */
  lemma {:induction false} DropAllNamed(ps: seq<Param>, ks: set<string>)
    requires forall i :: 0 <= i < |ps| ==> ps[i].name in ks
    ensures Drop(ps, ks) == []
  {
    if ps != [] {
      DropAllNamed(ps[1..], ks);
    }
  }

  lemma {:induction false} SetExistingFacts(ps: seq<Param>, k: string, v: string)
    requires HasName(ps, k)
    ensures Get(SetExisting(ps, k, v), k) == Some(v)
    ensures Drop(SetExisting(ps, k, v), {k}) == Drop(ps, {k})
  {
    var r := SetExisting(ps, k, v);
    if ps[0].name == k {
      DropDrop(ps[1..], {k}, {k});
      assert {k} + {k} == {k};
    } else {
      assert HasName(ps[1..], k) by {
        var i :| 0 <= i < |ps| && ps[i].name == k;
        assert ps[1..][i - 1] == ps[i];
      }
      SetExistingFacts(ps[1..], k, v);
    }
  }

  /** `set(k, v)` makes `k` read `v` and leaves every other pair in place,
      in order. */
  lemma SetParamFacts(ps: seq<Param>, k: string, v: string)
    ensures Get(SetParam(ps, k, v), k) == Some(v)
    ensures Drop(SetParam(ps, k, v), {k}) == Drop(ps, {k})
    ensures !HasName(ps, k) ==> SetParam(ps, k, v) == ps + [Param(k, v)]
  {
    if HasName(ps, k) {
      SetExistingFacts(ps, k, v);
    } else {
      GetAppend(ps, [Param(k, v)], k);
      DropAppend(ps, [Param(k, v)], {k});
    }
  }

  /** `set(k, v)` leaves the reading of every other name alone. */
  lemma SetParamOthers(ps: seq<Param>, k: string, v: string, j: string)
    requires j != k
    ensures Get(SetParam(ps, k, v), j) == Get(ps, j)
  {
    SetParamFacts(ps, k, v);
    GetDrop(SetParam(ps, k, v), {k}, j);
    GetDrop(ps, {k}, j);
  }

  /** A local `URLSearchParams` object that components rewrite step by step. */
  class SearchParams {
    var pairs: seq<Param>

    /** `new URLSearchParams(searchParams)`: a copy of the current pairs. */
    constructor (init: seq<Param>)
      ensures pairs == init
    {
      pairs := init;
    }

    method Delete(k: string)
      modifies this
      ensures pairs == Drop(old(pairs), {k})
    {
      pairs := Drop(pairs, {k});
    }

    method Set(k: string, v: string)
      modifies this
      ensures pairs == SetParam(old(pairs), k, v)
    {
      pairs := SetParam(pairs, k, v);
    }

    function Size(): nat
      reads this
    {
      |pairs|
    }

    function ToString(): string
      reads this
    {
      Serialize(pairs)
    }
  }
}
