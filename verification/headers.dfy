/** Folding header lists into plain objects (index.js:38-65). */
module Headers {
  import opened Wrappers

  /** A header written `{name, value}`, as a HAR log and the description's response side write them. */
  datatype Header = Header(name: string, value: string)

  /** A header written `{key, value}`, as the description's request side writes them. */
  datatype KeyedHeader = KeyedHeader(key: string, value: string)

  /** The plain object headers are folded into: string property names, compared exactly. */
  type HeaderMap = map<string, string>

  /** One property assignment `object[label] = value`. */
  type Assignment = (string, string)

  /** The property names a run of assignments writes. */
  function Labels(ps: seq<Assignment>): set<string> {
    set i | 0 <= i < |ps| :: ps[i].0
  }

  /** No assignment after the one at `i` writes the same property. */
  predicate IsLastWrite(ps: seq<Assignment>, i: int)
    requires 0 <= i < |ps|
  {
    forall j :: i < j < |ps| ==> ps[j].0 != ps[i].0
  }

  /** Performs the assignments, in order, on an object that starts as `{}`. */
  function Assign(ps: seq<Assignment>): HeaderMap
    decreases |ps|
  {
    if |ps| == 0 then map[] else Assign(ps[..|ps| - 1])[ps[|ps| - 1].0 := ps[|ps| - 1].1]
  }

  /** Exactly the properties some assignment writes are present afterwards. */
  lemma {:induction false} AssignKeys(ps: seq<Assignment>)
    ensures Assign(ps).Keys == Labels(ps)
    decreases |ps|
  {
    if |ps| > 0 {
      var init := ps[..|ps| - 1];
      AssignKeys(init);
      assert forall i :: 0 <= i < |init| ==> init[i] == ps[i];
      assert Labels(ps) == Labels(init) + {ps[|ps| - 1].0};
    }
  }

  /** A property holds the value of the last assignment that writes it. */
  lemma {:induction false} AssignLastWins(ps: seq<Assignment>, i: int)
    requires 0 <= i < |ps| && IsLastWrite(ps, i)
    ensures ps[i].0 in Assign(ps) && Assign(ps)[ps[i].0] == ps[i].1
    decreases |ps|
  {
    if i < |ps| - 1 {
      var init := ps[..|ps| - 1];
      assert init[i] == ps[i];
      assert IsLastWrite(init, i) by {
        forall j | i < j < |init| ensures init[j].0 != init[i].0 {
          assert init[j] == ps[j];
        }
      }
      AssignLastWins(init, i);
      assert ps[|ps| - 1].0 != ps[i].0;
    }
  }

  /** The assignments `item => object[item.name] = item.value` of a `forEach`. */
  function ByName(hs: seq<Header>): seq<Assignment> {
    seq(|hs|, i requires 0 <= i < |hs| => (hs[i].name, hs[i].value))
  }

  /** The assignments `item => object[item.key] = item.value` of a `forEach`. */
  function ByKey(hs: seq<KeyedHeader>): seq<Assignment> {
    seq(|hs|, i requires 0 <= i < |hs| => (hs[i].key, hs[i].value))
  }

  /** No header after the one at `i` carries the same name. */
  predicate LastNamed(hs: seq<Header>, i: int)
    requires 0 <= i < |hs|
  {
    forall j :: i < j < |hs| ==> hs[j].name != hs[i].name
  }

  /** No header after the one at `i` carries the same key. */
  predicate LastKeyed(hs: seq<KeyedHeader>, i: int)
    requires 0 <= i < |hs|
  {
    forall j :: i < j < |hs| ==> hs[j].key != hs[i].key
  }

  /** `const o = {}; if (list) list.forEach(item => { o[item.name] = item.value; });` */
  function NamedMap(list: Option<seq<Header>>): (m: HeaderMap)
    ensures list.None? ==> m == map[]
    ensures list.Some? ==> m.Keys == set i | 0 <= i < |list.value| :: list.value[i].name
    ensures list.Some? ==> forall i :: 0 <= i < |list.value| && LastNamed(list.value, i) ==>
                                         list.value[i].name in m && m[list.value[i].name] == list.value[i].value
  {
    match list
    case None => map[]
    case Some(hs) =>
      var ps := ByName(hs);
      AssignKeys(ps);
      assert Labels(ps) == set i | 0 <= i < |hs| :: hs[i].name by {
        forall k | k in Labels(ps) ensures k in set i | 0 <= i < |hs| :: hs[i].name {
          var i :| 0 <= i < |ps| && ps[i].0 == k;
          assert hs[i].name == k;
        }
        forall k | k in set i | 0 <= i < |hs| :: hs[i].name ensures k in Labels(ps) {
          var i :| 0 <= i < |hs| && hs[i].name == k;
          assert ps[i].0 == k;
        }
      }
      assert forall i :: 0 <= i < |hs| && LastNamed(hs, i) ==> ps[i].0 in Assign(ps) && Assign(ps)[ps[i].0] == ps[i].1 by {
        forall i | 0 <= i < |hs| && LastNamed(hs, i)
          ensures ps[i].0 in Assign(ps) && Assign(ps)[ps[i].0] == ps[i].1
        {
          AssignLastWins(ps, i);
        }
      }
      Assign(ps)
  }

  /** `const o = {}; if (list) list.forEach(item => { o[item.key] = item.value; });` */
  function KeyedMap(list: Option<seq<KeyedHeader>>): (m: HeaderMap)
    ensures list.None? ==> m == map[]
    ensures list.Some? ==> m.Keys == set i | 0 <= i < |list.value| :: list.value[i].key
    ensures list.Some? ==> forall i :: 0 <= i < |list.value| && LastKeyed(list.value, i) ==>
                                         list.value[i].key in m && m[list.value[i].key] == list.value[i].value
  {
    match list
    case None => map[]
    case Some(hs) =>
      var ps := ByKey(hs);
      AssignKeys(ps);
      assert Labels(ps) == set i | 0 <= i < |hs| :: hs[i].key by {
        forall k | k in Labels(ps) ensures k in set i | 0 <= i < |hs| :: hs[i].key {
          var i :| 0 <= i < |ps| && ps[i].0 == k;
          assert hs[i].key == k;
        }
        forall k | k in set i | 0 <= i < |hs| :: hs[i].key ensures k in Labels(ps) {
          var i :| 0 <= i < |hs| && hs[i].key == k;
          assert ps[i].0 == k;
        }
      }
      assert forall i :: 0 <= i < |hs| && LastKeyed(hs, i) ==> ps[i].0 in Assign(ps) && Assign(ps)[ps[i].0] == ps[i].1 by {
        forall i | 0 <= i < |hs| && LastKeyed(hs, i)
          ensures ps[i].0 in Assign(ps) && Assign(ps)[ps[i].0] == ps[i].1
        {
          AssignLastWins(ps, i);
        }
      }
      Assign(ps)
  }
}
