/** Lexical path resolution and the containment test for payload reads. Paths are sequences of
    components from the root; symbolic links are not part of the model. */
module Paths {

  type Path = seq<string>

  /** The pieces of a path text between slashes; there is always at least one. */
  function Split(s: string): (parts: seq<string>)
    ensures parts != []
  {
    if s == "" then [""]
    else
      var parts, c := Split(s[..|s| - 1]), s[|s| - 1];
      if c == '/' then parts + [""]
      else parts[..|parts| - 1] + [parts[|parts| - 1] + [c]]
  }

  /** One step of normalisation; the parent of the root is the root. */
  function Enter(at: Path, part: string): Path {
    if part == "" || part == "." then at
    else if part == ".." then (if at == [] then [] else at[..|at| - 1])
    else at + [part]
  }

  function Walk(at: Path, parts: seq<string>): Path {
    if parts == [] then at else Enter(Walk(at, parts[..|parts| - 1]), parts[|parts| - 1])
  }

  /** `weakly_canonical` of a path text, seen from the working directory. */
  function Canonical(cwd: Path, text: string): Path {
    if text == "" then []
    else Walk(if text[0] == '/' then [] else cwd, Split(text))
  }

  /** The path operator `/` for a relative right-hand side. */
  function Join(dir: string, name: string): string {
    if dir == "" || dir[|dir| - 1] == '/' then dir + name else dir + "/" + name
  }

  /** A text that names an entry of the directory it is looked up in. */
  predicate PlainName(name: string) {
    name != "" && name != "." && name != ".." && '/' !in name
  }

  lemma {:induction false} SplitName(dir: string, name: string)
    requires '/' !in name
    ensures Split(dir + "/" + name) == Split(dir) + [name]
  {
    if name == "" {
      assert (dir + "/" + name)[..|dir|] == dir;
    } else {
      var front, c := name[..|name| - 1], name[|name| - 1];
      var s := dir + "/" + name;
      assert s[..|s| - 1] == dir + "/" + front && s[|s| - 1] == c;
      assert c in name;
      SplitName(dir, front);
      assert front + [c] == name;
    }
  }

  lemma {:induction false} SplitPlain(part: string)
    requires '/' !in part
    ensures Split(part) == [part]
  {
    if part != "" {
      var front, c := part[..|part| - 1], part[|part| - 1];
      assert c in part;
      SplitPlain(front);
      assert front + [c] == part;
    }
  }

  lemma WalkOneMore(at: Path, parts: seq<string>, part: string)
    ensures Walk(at, parts + [part]) == Enter(Walk(at, parts), part)
  {
    assert (parts + [part])[..|parts|] == parts;
  }

  lemma CanonicalDeeper(cwd: Path, dir: string, part: string)
    requires '/' !in part
    ensures Canonical(cwd, dir + "/" + part) == Enter(if dir != "" then Canonical(cwd, dir) else [], part)
  {
    var text := dir + "/" + part;
    var start := if text[0] == '/' then [] else cwd;
    SplitName(dir, part);
    WalkOneMore(start, Split(dir), part);
    if dir == "" {
      WalkOneMore([], [], "");
    } else {
      assert text[0] == dir[0];
    }
    hide Walk, Split, Enter;
    assert Canonical(cwd, text) == Walk(start, Split(text));
  }

  lemma CanonicalPlain(cwd: Path, part: string)
    requires '/' !in part && part != ""
    ensures Canonical(cwd, part) == Enter(cwd, part)
  {
    SplitPlain(part);
    assert part[0] in part;
    WalkOneMore(cwd, [], part);
    hide Split, Enter;
  }

  /** Resolution part by part: an absolute text starts at the root and any other at the working directory;
      empty parts and "." stay, ".." goes to the parent, and every other part goes one down. */
  lemma CanonicalByParts(cwd: Path, dir: string, part: string)
    requires '/' !in part
    ensures Canonical(cwd, "") == []
    ensures var at := if dir != "" then Canonical(cwd, dir) else [];
      Canonical(cwd, dir + "/" + part)
      == if part == "" || part == "." then at
         else if part == ".." then (if at == [] then [] else at[..|at| - 1])
         else at + [part]
    ensures part != "" ==>
      Canonical(cwd, part)
      == if part == "." then cwd
         else if part == ".." then (if cwd == [] then [] else cwd[..|cwd| - 1])
         else cwd + [part]
  {
    CanonicalDeeper(cwd, dir, part);
    if part != "" {
      CanonicalPlain(cwd, part);
    }
    assert Canonical(cwd, "") == [];
    hide Canonical;
  }

  /** A plain name under a directory resolves to one component below it. */
  lemma NameIsOneComponent(cwd: Path, dir: string, name: string)
    requires PlainName(name)
    ensures Canonical(cwd, Join(dir, name)) == (if dir == "" then cwd else Canonical(cwd, dir)) + [name]
  {
    hide Canonical;
    if dir == "" {
      assert Join(dir, name) == name;
      CanonicalByParts(cwd, dir, name);
    } else if dir[|dir| - 1] == '/' {
      var front := dir[..|dir| - 1];
      assert dir == front + "/" + "" && Join(dir, name) == front + "/" + name;
      CanonicalByParts(cwd, front, "");
      CanonicalByParts(cwd, front, name);
    } else {
      CanonicalByParts(cwd, dir, name);
    }
  }

  /** The containment loop accepts exactly the paths strictly below the directory. */
  method IsPathInsideDirectory(path: Path, directory: Path) returns (inside: bool)
    ensures inside <==> directory < path
  {
    if path == directory {
      return false;
    }
    var dirIter, pathIter := 0, 0;
    while dirIter != |directory| && pathIter != |path|
      invariant 0 <= dirIter == pathIter <= |directory| && pathIter <= |path|
      invariant directory[..dirIter] == path[..pathIter]
      decreases |directory| - dirIter
    {
      if directory[dirIter] != path[pathIter] {
        return false;
      }
      dirIter := dirIter + 1;
      pathIter := pathIter + 1;
    }
    if dirIter != |directory| {
      return false;
    }
    return true;
  }
}
