/** The part of the file system under a cache directory: a map from path to file contents. */
module Disk {
  import opened Wrappers
  import opened Json

  /** `path.join(dir, name)` for a plain file name. */
  function PathJoin(dir: string, name: string): string {
    dir + "/" + name
  }

  /** The file system. Every operation takes a flag that makes it fail the way the real call can throw. */
  class Disk {
    var files: map<string, Text>

    constructor (files: map<string, Text>)
      ensures this.files == files
    {
      this.files := files;
    }

    /** `existsSync(path)` */
    predicate Exists(path: string)
      reads this
    {
      path in files
    }

    /** `fs.promises.readFile(path, "utf8")`: `None` when it rejects. */
    method ReadFile(path: string, fails: bool) returns (r: Option<Text>)
      ensures r.Some? <==> !fails && path in files
      ensures r.Some? ==> r.value == files[path]
    {
      if fails || path !in files {
        r := None;
      } else {
        r := Some(files[path]);
      }
    }

    /** `fs.promises.writeFile(path, text, "utf8")`: creates or replaces the file, or rejects. */
    method WriteFile(path: string, text: Text, fails: bool) returns (ok: bool)
      modifies this
      ensures ok == !fails
      ensures files == if ok then old(files)[path := text] else old(files)
    {
      ok := !fails;
      if ok {
        files := files[path := text];
      }
    }

    /** `fs.promises.rename(from, to)`: moves the file over any file at `to`; rejects when `from` is missing. */
    method Rename(from: string, to: string, fails: bool) returns (ok: bool)
      modifies this
      ensures ok == (!fails && from in old(files))
      ensures files == if ok then (old(files) - {from})[to := old(files)[from]] else old(files)
    {
      ok := !fails && from in files;
      if ok {
        files := (files - {from})[to := files[from]];
      }
    }

    /** `fs.promises.unlink(path)`: rejects when the file is missing. */
    method Unlink(path: string, fails: bool) returns (ok: bool)
      modifies this
      ensures ok == (!fails && path in old(files))
      ensures files == if ok then old(files) - {path} else old(files)
    {
      ok := !fails && path in files;
      if ok {
        files := files - {path};
      }
    }
  }
}
