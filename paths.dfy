/** The `os.path` functions the loaders use to name a table after its file:
    `basename`, the root part of `splitext`, and `join`. Paths use "/" as
    the separator. */
module Paths {
  import opened Values

  /** `os.path.basename`: the text after the last "/". */
  function BaseName(p: string): (b: string)
    ensures '/' !in b
  {
    if p == [] then []
    else if p[|p| - 1] == '/' then []
    else BaseName(p[..|p| - 1]) + [p[|p| - 1]]
  }

  /** The position of the last occurrence of `ch`, if any. */
  function LastIndexOf(s: string, ch: char): (r: Option<nat>)
    ensures r.None? ==> ch !in s
    ensures r.Some? ==> r.value < |s| && s[r.value] == ch
    ensures r.Some? ==> forall k :: r.value < k < |s| ==> s[k] != ch
  {
    if s == [] then None
    else if s[|s| - 1] == ch then Some(|s| - 1)
    else
      var r := LastIndexOf(s[..|s| - 1], ch);
      assert s == s[..|s| - 1] + [s[|s| - 1]];
      r
  }

  /** The root of `os.path.splitext` on a base name: the text before the
      last ".", unless every character before that dot is a dot too (".bashrc"
      and "..csv" have no extension). */
  function StripExtension(b: string): string
  {
    match LastIndexOf(b, '.')
    case None => b
    case Some(d) => if exists k :: 0 <= k < d && b[k] != '.' then b[..d] else b
  }

  /** `os.path.splitext(os.path.basename(path))[0]`: the table name a loader
      gives the table it read from `path`. */
  function TableNameOf(path: string): string
  {
    StripExtension(BaseName(path))
  }

  /** `os.path.join(directory, name)`: an absolute name replaces the
      directory; otherwise a "/" is put between them unless the directory is
      empty or already ends with one. */
  function JoinPath(directory: string, name: string): string
  {
    if name != [] && name[0] == '/' then name
    else if directory == [] || directory[|directory| - 1] == '/' then directory + name
    else directory + "/" + name
  }

  /** The base name of a path ending in a "/"-free name is that name. */
  lemma {:induction false} BaseNameOfSuffix(prefix: string, name: string)
    requires '/' !in name
    requires prefix == [] || prefix[|prefix| - 1] == '/'
    ensures BaseName(prefix + name) == name
  {
    var p := prefix + name;
    if name == [] {
      assert p == prefix;
    } else {
      var m := |name| - 1;
      assert name[m] in name;
      assert p[|p| - 1] == name[m];
      assert p[..|p| - 1] == prefix + name[..m];
      assert '/' !in name[..m] by {
        forall k | 0 <= k < m ensures name[..m][k] != '/' {
          assert name[..m][k] == name[k] && name[k] in name;
        }
      }
      BaseNameOfSuffix(prefix, name[..m]);
      assert name[..m] + [name[m]] == name;
    }
  }

  /** Joining a relative "/"-free file name onto a directory and taking the
      base name gives the file name back. */
  lemma BaseNameOfJoin(directory: string, name: string)
    requires '/' !in name && name != []
    ensures BaseName(JoinPath(directory, name)) == name
  {
    if directory == [] || directory[|directory| - 1] == '/' {
      BaseNameOfSuffix(directory, name);
    } else {
      assert directory + "/" + name == (directory + "/") + name;
      BaseNameOfSuffix(directory + "/", name);
    }
  }

  /** A file "root.ext" in a directory loads as a table named "root", when
      the root holds a character other than "." and the extension holds no
      "." (so "sales.csv" gives "sales" and "a.b.csv" gives "a.b"). */
  lemma TableNameDropsExtension(directory: string, root: string, ext: string)
    requires '/' !in root && '/' !in ext && '.' !in ext
    requires exists k :: 0 <= k < |root| && root[k] != '.'
    ensures TableNameOf(JoinPath(directory, root + "." + ext)) == root
  {
    var name := root + "." + ext;
    assert '/' !in name by {
      forall k | 0 <= k < |name| ensures name[k] != '/' {
        if k < |root| { assert name[k] == root[k]; }
        else if k > |root| { assert name[k] == ext[k - |root| - 1]; }
      }
    }
    BaseNameOfJoin(directory, name);
    var d := LastIndexOf(name, '.');
    assert name[|root|] == '.';
    forall k | |root| < k < |name| ensures name[k] != '.' {
      assert name[k] == ext[k - |root| - 1];
      assert ext[k - |root| - 1] in ext;
    }
    assert d == Some(|root|);
    var k :| 0 <= k < |root| && root[k] != '.';
    assert name[k] == root[k];
    assert name[..|root|] == root;
  }

  /** A file whose name starts with its only "." has no extension: it
      loads as a table named after the whole file name (".hidden"). */
  lemma LeadingDotKeepsName(directory: string, rest: string)
    requires '/' !in rest && '.' !in rest
    ensures TableNameOf(JoinPath(directory, "." + rest)) == "." + rest
  {
    var name := "." + rest;
    assert '/' !in name by {
      forall k | 0 <= k < |name| ensures name[k] != '/' {
        if k > 0 { assert name[k] == rest[k - 1] && rest[k - 1] in rest; }
      }
    }
    BaseNameOfJoin(directory, name);
    forall k | 0 < k < |name| ensures name[k] != '.' {
      assert name[k] == rest[k - 1] && rest[k - 1] in rest;
    }
    assert LastIndexOf(name, '.') == Some(0);
  }
}
