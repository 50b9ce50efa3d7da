// The repository store backed by a hash map.

module HashStore {
  import opened Types
  import Objects

  datatype StorageError = NotFound

  class HashMapRepoStore {
    var blocks: Objects.Store

    constructor ()
      ensures blocks == map[]
    {
      blocks := map[];
    }

    method Get(id: Digest) returns (r: Result<Block, StorageError>)
      ensures r == if id in blocks then Ok(blocks[id]) else Err(NotFound)
    {
      if id in blocks {
        r := Ok(blocks[id]);
      } else {
        r := Err(NotFound);
      }
    }

    /** A later put under the same id replaces the block; its key is never kept. */
    method Put(block: Block) returns (id: Digest)
      modifies this
      ensures id == block.Id()
      ensures blocks == Objects.Put(old(blocks), block)
      ensures blocks[id].key == None
    {
      id := block.Id();
      blocks := blocks[id := block.(key := None)];
    }

    /** `valueSize` is what `size_of_val` gives, which is the same for every block. */
    method Del(id: Digest, valueSize: nat) returns (r: Result<(Block, nat), StorageError>)
      modifies this
      ensures r == if id in old(blocks) then Ok((old(blocks)[id], valueSize)) else Err(NotFound)
      ensures blocks == old(blocks) - {id}
    {
      if id in blocks {
        r := Ok((blocks[id], valueSize));
        blocks := blocks - {id};
      } else {
        r := Err(NotFound);
      }
    }
  }
}
