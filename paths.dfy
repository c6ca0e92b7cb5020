/**
 * POSIX path handling the export relies on: `os.path.join(dir, name)` and the
 * set of files that `shutil.rmtree(dir)` deletes.
 */
module Paths {

  function DirPrefix(dir: string): (d: string)
    ensures d == dir || d == dir + "/"
    ensures d != [] ==> d[|d| - 1] == '/'
  {
    if dir == [] || dir[|dir| - 1] == '/' then dir else dir + "/"
  }

  predicate Absolute(name: string) {
    name != [] && name[0] == '/'
  }

  /** `os.path.join(dir, name)`: an absolute `name` replaces `dir`; otherwise one `/` separates them. */
  function Join(dir: string, name: string): (path: string)
    ensures Absolute(name) ==> path == name
    ensures !Absolute(name) ==>
      && |path| == |DirPrefix(dir)| + |name|
      && path[..|DirPrefix(dir)|] == DirPrefix(dir) && path[|DirPrefix(dir)|..] == name
  {
    if Absolute(name) then name else DirPrefix(dir) + name
  }

  /** `path` names something inside directory `dir`. */
  predicate Under(path: string, dir: string) {
    var d := DirPrefix(dir);
    |d| < |path| && path[..|d|] == d
  }

  /** A non-empty relative name joined to a directory names something inside it. */
  lemma JoinUnder(dir: string, name: string)
    requires name != [] && !Absolute(name)
    ensures Under(Join(dir, name), dir)
  {
    assert (DirPrefix(dir) + name)[..|DirPrefix(dir)|] == DirPrefix(dir);
  }

  /**
   * Joining to one directory keeps names apart, as long as either both
   * names are absolute or neither is.
   */
  lemma JoinInjective(dir: string, a: string, b: string)
    requires Absolute(a) == Absolute(b)
    requires Join(dir, a) == Join(dir, b)
    ensures a == b
  {
    if !Absolute(a) {
      var d := DirPrefix(dir);
      assert a == (d + a)[|d|..] && b == (d + b)[|d|..];
    }
  }

  /** What is left of a set of files after `os.remove(path)`. */
  function RemoveFile<V>(files: map<string, V>, path: string): (r: map<string, V>)
    ensures forall p :: p in r <==> p in files && p != path
    ensures forall p :: p in r ==> r[p] == files[p]
  {
    files - {path}
  }

  /** Removing a file just written gives back the files there were before, less any older file at that path. */
  lemma RemoveWritten<V>(files: map<string, V>, path: string, v: V)
    ensures RemoveFile(files[path := v], path) == RemoveFile(files, path)
    ensures path !in files ==> RemoveFile(files[path := v], path) == files
  {
  }

  /** What is left of a set of files after `shutil.rmtree(dir)`. */
  function RemoveUnder<V>(files: map<string, V>, dir: string): (r: map<string, V>)
    ensures forall p :: p in r <==> p in files && !Under(p, dir)
    ensures forall p :: p in r ==> r[p] == files[p]
  {
    map p | p in files && !Under(p, dir) :: files[p]
  }

  /** Writing a file inside `dir` makes no difference once `dir` is removed. */
  lemma RemoveUnderWrite<V>(files: map<string, V>, dir: string, path: string, v: V)
    requires Under(path, dir)
    ensures RemoveUnder(files[path := v], dir) == RemoveUnder(files, dir)
  {
  }

  /** Removing a directory with nothing in it leaves every file in place. */
  lemma RemoveUnderNothing<V>(files: map<string, V>, dir: string)
    requires forall p :: p in files ==> !Under(p, dir)
    ensures RemoveUnder(files, dir) == files
  {
  }
}
