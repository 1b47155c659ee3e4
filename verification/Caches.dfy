/** The memoised id functions (src/bin/cli.rs:54-75, 186-240). */
module Caches {
  import opened Defs
  import opened Ids

  /** A cache after some of its entries were evicted and the values of some keys were computed and stored. */
  function Disturbed<K(==)>(cache: map<K, I64>, kept: set<K>, added: set<K>, uncached: K -> I64): (r: map<K, I64>)
    requires forall k :: k in cache ==> cache[k] == uncached(k)
    ensures forall k :: k in r ==> r[k] == uncached(k)
  {
    (map k | k in cache && k in kept :: cache[k]) + (map k | k in added :: uncached(k))
  }

  /** The three evicting caches, shared by all threads that sink data. */
  class IdCaches {
    const ids: IdScheme
    ghost const hash: Hash
    var dataIds: map<StackNodeData, I64>
    var nodeIds: map<StackNode, I64>
    var miscIds: map<Text, I64>

    constructor (hash: Hash)
      ensures Valid() && this.hash == hash && ids == Hashed(hash)
    {
      ids, this.hash := Hashed(hash), hash;
      dataIds, nodeIds, miscIds := map[], map[], map[];
    }

    /** Each entry is the uncached id of its key, whatever was evicted. */
    ghost predicate Valid()
      reads this
    {
      && (forall k :: k in dataIds ==> dataIds[k] == ids.frame(k.frame))
      && (forall k :: k in nodeIds ==> nodeIds[k] == ids.node(k.parent_id, k.stack_node_data_id, k.executable_id))
      && (forall k :: k in miscIds ==> miscIds[k] == ids.misc(k))
    }

    /** Whatever happens to the caches between two calls: any entries are evicted, and other threads' calls have
        stored the ids of any keys. */
    method Interfere()
      requires Valid()
      modifies this
      ensures Valid()
    {
      var kept: set<StackNodeData>, added: set<StackNodeData> := *, *;
      dataIds := Disturbed(dataIds, kept, added, (k: StackNodeData) => ids.frame(k.frame));
      var keptNodes: set<StackNode>, addedNodes: set<StackNode> := *, *;
      nodeIds := Disturbed(nodeIds, keptNodes, addedNodes,
                           (k: StackNode) => ids.node(k.parent_id, k.stack_node_data_id, k.executable_id));
      var keptTexts: set<Text>, addedTexts: set<Text> := *, *;
      miscIds := Disturbed(miscIds, keptTexts, addedTexts, (k: Text) => ids.misc(k));
    }

    method MiscId(data: Text) returns (id: I64)
      requires Valid()
      modifies this
      ensures Valid() && id == ids.misc(data)
      ensures ids == Hashed(hash) ==> id == IdOf(hash, data)
    {
      Interfere();
      if data in miscIds {
        id := miscIds[data];
      } else {
        id := ids.misc(data);
        miscIds := miscIds[data := id];
      }
    }

    /** The key holds the row's old id and its count as well, but the id found depends on neither. */
    method IdStackNode(data: StackNode) returns (r: StackNode)
      requires Valid()
      modifies this
      ensures Valid()
      ensures r == data.(id := ids.node(data.parent_id, data.stack_node_data_id, data.executable_id))
      ensures ids == Hashed(hash) ==>
                r.id == IdOf(hash, NodeBytes(data.parent_id, data.stack_node_data_id, data.executable_id))
    {
      Interfere();
      var id;
      if data in nodeIds {
        id := nodeIds[data];
      } else {
        id := ids.node(data.parent_id, data.stack_node_data_id, data.executable_id);
        nodeIds := nodeIds[data := id];
      }
      r := data.(id := id);
    }

    method IdData(data: StackNodeData) returns (r: StackNodeData)
      requires Valid()
      modifies this
      ensures Valid() && r == data.(id := ids.frame(data.frame))
      ensures ids == Hashed(hash) ==> r.id == IdOf(hash, FrameBytes(data.frame))
    {
      Interfere();
      var id;
      if data in dataIds {
        id := dataIds[data];
      } else {
        id := ids.frame(data.frame);
        dataIds := dataIds[data := id];
      }
      r := data.(id := id);
    }
  }
}
