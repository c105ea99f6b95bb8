/**
 * The JSON history files behind `save_to_memory` / `load_from_memory`
 * (the same pair appears in modules/rag_tool.py and in
 * modules/hts_duty_calculator.py): the file system is a map from file name to
 * the list last written there.
 */
module MemoryStore {

  type FileStore<E> = map<string, seq<E>>

  /** `save_to_memory(entries, name)`: the file is overwritten with the whole list. */
  function Save<E>(files: FileStore<E>, name: string, entries: seq<E>): (r: FileStore<E>)
    ensures r.Keys == files.Keys + {name}
    ensures r[name] == entries
    ensures forall n :: n in files && n != name ==> r[n] == files[n]
  {
    files[name := entries]
  }

  /** `load_from_memory(name)`: the stored list, or `[]` when the file does not exist. */
  function Load<E>(files: FileStore<E>, name: string): (r: seq<E>)
    ensures name !in files ==> r == []
    ensures name in files ==> r == files[name]
  {
    if name in files then files[name] else []
  }

  /** Load after save returns the saved list, the empty one included. */
  lemma LoadAfterSave<E>(files: FileStore<E>, name: string, entries: seq<E>)
    ensures Load(Save(files, name, entries), name) == entries
  {
  }

  /** Saving one file leaves what every other file loads unchanged. */
  lemma SaveIsolated<E>(files: FileStore<E>, name: string, other: string, entries: seq<E>)
    requires other != name
    ensures Load(Save(files, name, entries), other) == Load(files, other)
  {
  }

  /** A second save replaces the first one entirely. */
  lemma SaveOverwrites<E>(files: FileStore<E>, name: string, first: seq<E>, second: seq<E>)
    ensures Save(Save(files, name, first), name, second) == Save(files, name, second)
  {
  }
}
