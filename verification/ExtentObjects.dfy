/** The extent server's table and the client's write-back cache as objects. */
module ExtentObjects {
  import opened Wrappers
  import opened LockSpec
  import opened ExtentSpec

  type Id = nat

  function At<T>(m: map<Id, T>, id: Id): Option<T> {
    if id in m then Some(m[id]) else None
  }

  /** Contents only; the attributes are not part of this model. */
  class ExtentServer {
    var contents: map<Id, string>

    constructor ()
      ensures contents == map[]
    {
      contents := map[];
    }

    method Put(id: Id, buf: string) returns (status: Reply)
      modifies this
      ensures status == OK && contents == old(contents)[id := buf]
    {
      contents := contents[id := buf];
      status := OK;
    }

    method Get(id: Id) returns (status: Reply, buf: string)
      ensures status == (if id in contents then OK else NOENT) && buf == Fetched(At(contents, id))
    {
      if id in contents {
        return OK, contents[id];
      }
      return NOENT, "";
    }

    method Remove(id: Id) returns (status: Reply)
      modifies this
      ensures status == (if id in old(contents) then OK else NOENT) && contents == old(contents) - {id}
    {
      if id !in contents {
        return NOENT;
      }
      contents := contents - {id};
      status := OK;
    }
  }

  class ExtentClient {
    const server: ExtentServer
    var fileCache: map<Id, Entry>

    constructor (server: ExtentServer)
      ensures this.server == server && fileCache == map[]
    {
      this.server := server;
      fileCache := map[];
    }

    /** `get`, through `fileGetter`. */
    method Get(id: Id, buf0: string) returns (status: Reply, buf: string)
      modifies this`fileCache
      ensures var (e, r, out) := GetEntry(At(old(fileCache), id), At(server.contents, id), buf0);
              status == r && buf == out && fileCache == old(fileCache)[id := e]
    {
      buf := buf0;
      status := OK;
      if id in fileCache {
        if fileCache[id].existInServer && !fileCache[id].removed {
          buf := fileCache[id].content;
          fileCache := fileCache[id := fileCache[id].(isDirty := true)];
        } else {
          status := NOENT;
          assert fileCache == fileCache[id := fileCache[id]];
        }
      } else {
        var inner: Reply;
        inner, buf := server.Get(id);
        fileCache := fileCache[id := Entry(buf, false, false, inner == OK)];
      }
    }

    method Put(id: Id, buf: string) returns (status: Reply)
      modifies this`fileCache
      ensures status == OK && fileCache == old(fileCache)[id := PutEntry(buf)]
    {
      fileCache := fileCache[id := Entry(buf, true, false, true)];
      status := OK;
    }

    method Remove(id: Id) returns (status: Reply)
      modifies this`fileCache
      ensures status == OK && fileCache == old(fileCache)[id := RemoveEntry()]
    {
      fileCache := fileCache[id := Entry("", true, true, false)];
      status := OK;
    }

    /** Pushes a dirty entry to the server and erases it; other extents are not touched. */
    method Flush(id: Id)
      modifies this`fileCache, server
      ensures fileCache == old(fileCache) - {id}
      ensures At(server.contents, id) == FlushedDisk(At(old(fileCache), id), At(old(server.contents), id))
      ensures forall k :: k != id ==> At(server.contents, k) == At(old(server.contents), k)
    {
      if id in fileCache && fileCache[id].isDirty {
        var status: Reply;
        if fileCache[id].removed {
          status := server.Remove(id);
        } else {
          status := server.Put(id, fileCache[id].content);
          assert status == OK;
        }
      }
      fileCache := fileCache - {id};
    }
  }
}
