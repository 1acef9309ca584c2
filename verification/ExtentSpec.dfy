/** One extent: what the client's cache entry and the server's record of it go through. */
module ExtentSpec {
  import opened Wrappers
  import opened LockSpec

  /** The cached content and its flags; `content` stays empty in an entry that `remove` leaves behind. */
  datatype Entry = Entry(content: string, isDirty: bool, removed: bool, existInServer: bool)

  datatype Reply = OK | NOENT

  /** What a client that reads the entry may see. */
  function EntryView(e: Entry): Option<string> {
    if e.removed || !e.existInServer then None else Some(e.content)
  }

  /** The get handler of the server answers the content, or nothing and the empty string. */
  function Fetched(disk: Option<string>): string {
    match disk
    case Some(v) => v
    case None => ""
  }

  /** `fileGetter`: the new entry, the status and what is left in the caller's buffer. A first miss answers OK even
      when the server has no such extent, because the inner status is a different variable. */
  function GetEntry(cached: Option<Entry>, disk: Option<string>, buf: string): (Entry, Reply, string) {
    match cached
    case Some(e) =>
      if e.existInServer && !e.removed then (e.(isDirty := true), OK, e.content) else (e, NOENT, buf)
    case None => (Entry(Fetched(disk), false, false, disk.Some?), OK, Fetched(disk))
  }

  function PutEntry(buf: string): Entry {
    Entry(buf, true, false, true)
  }

  function RemoveEntry(): Entry {
    Entry("", true, true, false)
  }

  /** `flush`: what the server holds afterwards; the entry is erased. */
  function FlushedDisk(cached: Option<Entry>, disk: Option<string>): Option<string> {
    match cached
    case None => disk
    case Some(e) => if !e.isDirty then disk else if e.removed then None else Some(e.content)
  }

  // ---- what flush and get do, from what a reader of the entry may see ----

  /** The server gets what the entry shows if and only if the entry is dirty; without one nothing is sent. */
  lemma FlushWritesExactlyDirtyEntries(e: Entry, disk: Option<string>)
    requires e.isDirty && !e.removed ==> e.existInServer
    ensures FlushedDisk(Some(e), disk) == if e.isDirty then EntryView(e) else disk
    ensures FlushedDisk(None, disk) == disk
  {
  }

  /** A get leaves an entry that shows what it showed, or on a miss what the server has; a hit makes it dirty. */
  lemma GetKeepsTheView(cached: Option<Entry>, disk: Option<string>, buf: string)
    ensures var (e, status, out) := GetEntry(cached, disk, buf);
            && EntryView(e) == (match cached case Some(c) => EntryView(c) case None => disk)
            && (EntryView(e).Some? ==> status == OK && out == EntryView(e).value)
            && (EntryView(e).None? && cached.Some? ==> status == NOENT && out == buf)
            && (e.isDirty <==> cached.Some? && (cached.value.isDirty || EntryView(cached.value).Some?))
  {
  }
}
