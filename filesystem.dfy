/**
  The local filesystem as the script sees it: the directories that exist and
  the contents of the regular files, both keyed by path.
*/
module FileSystem {
  import opened Base
  import opened Text

  /** The two file maps agree on every path outside `paths`. */
  ghost predicate SameOutside(a: map<string, Bytes>, b: map<string, Bytes>, paths: set<string>) {
    forall p :: p !in paths ==> (p in a <==> p in b) && (p in a ==> a[p] == b[p])
  }

  /** Writing a path twice leaves the second content. */
  lemma UpdateTwice(m: map<string, Bytes>, p: string, a: Bytes, b: Bytes)
    ensures m[p := a][p := b] == m[p := b]
  {
  }

  class Disk {
    var dirs: set<string>
    var files: map<string, Bytes>

    /** Every file lies in a directory that exists. */
    ghost predicate Valid()
      reads this
    {
      forall p :: p in files ==> Parent(p) in dirs
    }

    constructor ()
      ensures Valid() && dirs == {} && files == map[]
    {
      dirs := {};
      files := map[];
    }

    /** `Path(p).mkdir(parents=True, exist_ok=True)` */
    method MakeDirs(p: string)
      requires Valid()
      modifies this
      ensures Valid()
      ensures dirs == old(dirs) + {p} && files == old(files)
    {
      dirs := dirs + {p};
    }

    /** `open(p, 'wb')` followed by writing `data`: the file's whole content becomes `data`. */
    method WriteFile(p: string, data: Bytes)
      requires Valid() && Parent(p) in dirs
      modifies this
      ensures Valid()
      ensures dirs == old(dirs) && files == old(files)[p := data]
    {
      files := files[p := data];
    }

    /** `f.write(data)` on a file opened for writing: `data` goes at the end. */
    method Append(p: string, data: Bytes)
      requires Valid() && p in files
      modifies this
      ensures Valid()
      ensures dirs == old(dirs) && files == old(files)[p := old(files)[p] + data]
    {
      files := files[p := files[p] + data];
    }

    /** `if p.exists(): p.unlink()` */
    method RemoveIfExists(p: string)
      requires Valid()
      modifies this
      ensures Valid()
      ensures dirs == old(dirs) && files == old(files) - {p}
    {
      files := files - {p};
    }
  }
}
