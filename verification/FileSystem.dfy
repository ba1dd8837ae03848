/**
 A file system whose every operation may fail without effect.

 An entry is a file, or a whole directory tree taken as one thing; plain directories that only
 hold entries are not recorded.  `history` collects the contents after every change, so a
 contract can speak about each state an operation passed through, `faults` counts the
 operations that failed on their own account, and `failures` lists them.
 */
module FileSystem {
  import opened Paths
  import opened Wrappers

  type Content = string

  type Entries = map<Path, Content>

  datatype FsError = NotExist | Fault

  datatype FsCall =
    | Inspecting(p: Path) | MakingDirectories(p: Path) | Renaming(from: Path, to: Path) | Removing(p: Path) | Writing(p: Path)

  function Lookup(entries: Entries, p: Path): Option<Content> {
    if p in entries then Some(entries[p]) else None
  }

  function Moved(entries: Entries, from: Path, to: Path): Entries
    requires from in entries
  {
    (entries - {from})[to := entries[from]]
  }

  function Without(entries: Entries, p: Path): Entries {
    map q | q in entries && !p.Contains(q) :: entries[q]
  }

  class FileSystem {
    var entries: Entries
    var faults: nat
    ghost var history: seq<Entries>
    ghost var failures: seq<FsCall>

    constructor (entries: Entries)
      ensures this.entries == entries && faults == 0 && history == [] && failures == []
    {
      this.entries := entries;
      faults := 0;
      history := [];
      failures := [];
    }

    /** Decides whether the next operation fails; it cannot be predicted. */
    method Breaks(ghost call: FsCall) returns (broken: bool)
      modifies this`faults, this`failures
      ensures faults == old(faults) + if broken then 1 else 0
      ensures failures == old(failures) + if broken then [call] else []
    {
      broken := *;
      if broken {
        faults := faults + 1;
        failures := failures + [call];
      }
    }

    /** Stat and Lstat: the content found there. */
    method Inspect(p: Path) returns (r: Result<Content, FsError>)
      modifies this`faults, this`failures
      ensures faults >= old(faults)
      ensures faults == old(faults) ==> r == if p in entries then Ok(entries[p]) else Err(NotExist)
      ensures r == Err(Fault) <==> faults > old(faults)
      ensures r.Ok? ==> p in entries && r.value == entries[p]
      ensures r == Err(NotExist) ==> p !in entries
      ensures failures == old(failures) + if r == Err(Fault) then [Inspecting(p)] else []
    {
      var broken := Breaks(Inspecting(p));
      r := if broken then Err(Fault) else if p in entries then Ok(entries[p]) else Err(NotExist);
    }

    method MakeDirectories(p: Path) returns (err: Option<FsError>)
      modifies this`faults, this`failures
      ensures faults >= old(faults)
      ensures err.Some? <==> faults > old(faults)
      ensures failures == old(failures) + if err.Some? then [MakingDirectories(p)] else []
    {
      var broken := Breaks(MakingDirectories(p));
      err := if broken then Some(Fault) else None;
    }

    method Rename(from: Path, to: Path) returns (err: Option<FsError>)
      modifies this`entries, this`faults, this`history, this`failures
      ensures faults >= old(faults)
      ensures faults > old(faults) ==> err == Some(Fault)
      ensures err.Some? && faults == old(faults) ==> err == Some(NotExist) && from !in old(entries)
      ensures err.None? ==> from in old(entries)
      ensures err.Some? ==> entries == old(entries) && history == old(history)
      ensures err.None? ==> entries == Moved(old(entries), from, to) && history == old(history) + [entries]
      ensures failures == old(failures) + if err == Some(Fault) then [Renaming(from, to)] else []
    {
      var broken := Breaks(Renaming(from, to));
      if broken {
        return Some(Fault);
      }
      if from !in entries {
        return Some(NotExist);
      }
      entries := Moved(entries, from, to);
      history := history + [entries];
      return None;
    }

    /** Removes the entry and everything below it; a missing entry is no error. */
    method RemoveAll(p: Path) returns (err: Option<FsError>)
      modifies this
      ensures faults >= old(faults)
      ensures err.Some? <==> faults > old(faults)
      ensures err.Some? ==> err == Some(Fault) && entries == old(entries) && history == old(history)
      ensures err.None? ==> entries == Without(old(entries), p) && history == old(history) + [entries]
      ensures faults == old(faults) + if err.Some? then 1 else 0
      ensures failures == old(failures) + if err.Some? then [Removing(p)] else []
    {
      var broken := Breaks(Removing(p));
      if broken {
        return Some(Fault);
      }
      entries := Without(entries, p);
      history := history + [entries];
      return None;
    }

    /** Writes a file; a write that fails may leave any content at that path. */
    method Write(p: Path, content: Content) returns (err: Option<FsError>)
      modifies this`entries, this`faults, this`history, this`failures
      ensures faults >= old(faults)
      ensures err.Some? <==> faults > old(faults)
      ensures err.None? ==> entries == old(entries)[p := content]
      ensures forall q :: q != p ==> Lookup(entries, q) == Lookup(old(entries), q)
      ensures history == old(history) + [entries]
      ensures failures == old(failures) + if err.Some? then [Writing(p)] else []
    {
      var broken := Breaks(Writing(p));
      if broken {
        var partial: Content := *;
        entries := entries[p := partial];
        history := history + [entries];
        return Some(Fault);
      }
      entries := entries[p := content];
      history := history + [entries];
      return None;
    }
  }
}
