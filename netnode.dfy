/**
 * IDA's persistent netnode store, as far as the symbol layer uses it: nodes
 * found (and created) by name, each holding one string value.
 */
module Netnode {
  import opened Wrappers

  /** The store after `netnode(key, 0, true)`: the node exists, with no value if it is new. */
  function Created(nodes: map<string, string>, key: string): (r: map<string, string>)
    ensures key in r
    ensures forall k :: k in nodes ==> k in r && r[k] == nodes[k]
    ensures forall k :: k in r && k != key ==> k in nodes
  {
    if key in nodes then nodes else nodes[key := ""]
  }

  /** What `valstr` reads from the node `key`: its value, the empty string when it has none. */
  function ValueOf(nodes: map<string, string>, key: string): string
  {
    if key in nodes then nodes[key] else ""
  }

  /** A read of `key` as the symbol layer reports it: an empty value reads as absent. */
  function Stored(nodes: map<string, string>, key: string): (r: Option<string>)
    ensures r.None? <==> ValueOf(nodes, key) == ""
    ensures r.Some? ==> r.value == ValueOf(nodes, key) && r.value != ""
  {
    if ValueOf(nodes, key) == "" then None else Some(ValueOf(nodes, key))
  }

  /** Creating a node changes no value anyone can read. */
  lemma CreatedReadsTheSame(nodes: map<string, string>, key: string, other: string)
    ensures Stored(Created(nodes, key), other) == Stored(nodes, other)
  {
  }

  /** After a write, the node reads back the written value, or absent when it was empty. */
  lemma StoredAfterSet(nodes: map<string, string>, key: string, value: string)
    ensures Stored(nodes[key := value], key) == (if value == "" then None else Some(value))
  {
  }

  class NodeStore {
    /** Every node by name, with its string value. */
    var nodes: map<string, string>

    constructor ()
      ensures nodes == map[]
    {
      nodes := map[];
    }

    /** netnode(key, 0, true): finds the node, creating it when it does not exist. */
    method Open(key: string)
      modifies this
      ensures nodes == Created(old(nodes), key)
    {
      if key !in nodes {
        nodes := nodes[key := ""];
      }
    }

    /** netnode::valstr on the node `key`. */
    method ValStr(key: string) returns (res: string)
      requires key in nodes
      ensures res == ValueOf(nodes, key)
    {
      res := nodes[key];
    }

    /** netnode::set on the node `key`: replaces its value. */
    method Set(key: string, value: string)
      requires key in nodes
      modifies this
      ensures nodes == old(nodes)[key := value]
    {
      nodes := nodes[key := value];
    }
  }
}
