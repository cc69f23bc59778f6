/** Guest paths: resolving text against a working directory, and writing a resolved path back as text. */
module GuestPaths {
  import opened Wrappers

  /** A resolved path: the names from the root down. */
  type Names = seq<string>

  /** A name that stands for itself in a path. */
  predicate Proper(name: string) {
    name != "" && name != "." && name != ".." && '/' !in name && '\0' !in name
  }

  predicate AllProper(names: Names) {
    forall i :: 0 <= i < |names| ==> Proper(names[i])
  }

  /** The pieces between slashes. */
  function Split(s: string): (r: seq<string>)
    ensures r != []
  {
    if s == [] then [[]]
    else
      var rest := Split(s[1..]);
      if s[0] == '/' then [[]] + rest else [[s[0]] + rest[0]] + rest[1..]
  }

  /** Walks the pieces from the root; `None` when `..` leaves it. */
  function Walk(pieces: seq<string>): Option<Names> {
    if pieces == [] then Some([])
    else
      var before := Walk(pieces[..|pieces| - 1]);
      if before.None? then None else Enter(before.value, pieces[|pieces| - 1])
  }

  function Enter(at: Names, piece: string): Option<Names> {
    if piece == "" || piece == "." then Some(at)
    else if piece == ".." then (if at == [] then None else Some(at[..|at| - 1]))
    else Some(at + [piece])
  }

  datatype PathProblem = EmptyOrNul | EscapesRoot

  /** The names a path stands for, seen from `cwd`. */
  function Normalize(path: string, cwd: string): Result<Names, PathProblem> {
    if path == "" || '\0' in path then Err(EmptyOrNul)
    else
      var walked := Walk(Split(Absolute(path, cwd)));
      if walked.None? then Err(EscapesRoot) else Ok(walked.value)
  }

  function Absolute(path: string, cwd: string): string
    requires path != ""
  {
    if path[0] == '/' then path else cwd + "/" + path
  }

  /** `normalize_path`. */
  method NormalizePath(path: string, cwd: string) returns (r: Result<Names, PathProblem>)
    ensures r == Normalize(path, cwd)
  {
    if path == "" || '\0' in path { return Err(EmptyOrNul); }
    var pieces := Split(Absolute(path, cwd));
    var names: Names := [];
    for i := 0 to |pieces|
      invariant Walk(pieces[..i]) == Some(names)
    {
      assert pieces[..i + 1][..i] == pieces[..i];
      var piece := pieces[i];
      if piece == "" || piece == "." {
      } else if piece == ".." {
        if names == [] {
          WalkStops(pieces, i + 1);
          return Err(EscapesRoot);
        }
        names := names[..|names| - 1];
      } else {
        names := names + [piece];
      }
    }
    assert pieces[..|pieces|] == pieces;
    r := Ok(names);
  }

  lemma {:induction false} WalkStops(pieces: seq<string>, i: nat)
    requires i <= |pieces| && Walk(pieces[..i]).None?
    ensures Walk(pieces).None?
    decreases |pieces| - i
  {
    if i == |pieces| {
      assert pieces[..i] == pieces;
    } else {
      assert pieces[..i + 1][..i] == pieces[..i];
      WalkStops(pieces, i + 1);
    }
  }

  function Join(names: Names): string
    requires names != []
  {
    if |names| == 1 then names[0] else names[0] + "/" + Join(names[1..])
  }

  /** `display_path`. */
  function Display(names: Names): string {
    if names == [] then "/" else "/" + Join(names)
  }

  // ----- what a path means, piece by piece -----

  lemma {:induction false} SplitLast(s: string, piece: string)
    requires '/' !in piece
    ensures Split(s + "/" + piece) == Split(s) + [piece]
  {
    var t := s + "/" + piece;
    if s == [] {
      assert t[1..] == piece;
      SplitWhole(piece);
    } else {
      SplitLast(s[1..], piece);
      assert t[1..] == s[1..] + "/" + piece;
    }
  }

  /** The names a path stands for, one piece at a time and without walking it: the root stands for itself, a relative
      path for what it is behind the working directory, and one more piece stays, goes up or goes down. */
  lemma PathLaws(path: string, piece: string, cwd: string)
    requires path != "" && path[0] == '/' && '\0' !in path && '/' !in piece && '\0' !in piece
    ensures Normalize("/", cwd) == Ok([])
    ensures Normalize("", cwd) == Err(EmptyOrNul) && Normalize(path + "\0" + piece, cwd) == Err(EmptyOrNul)
    ensures '\0' !in cwd && cwd != "" && cwd[0] == '/' && piece != "" ==> Normalize(piece, cwd) == Normalize(cwd + "/" + piece, cwd)
    ensures Normalize(path + "/" + piece, cwd) ==
      match Normalize(path, cwd)
      case Err(e) => Err(e)
      case Ok(names) =>
        if piece == "" || piece == "." then Ok(names)
        else if piece != ".." then Ok(names + [piece])
        else if names == [] then Err(EscapesRoot)
        else Ok(names[..|names| - 1])
  {
    SplitLast(path, piece);
    assert (Split(path) + [piece])[..|Split(path)|] == Split(path);
    assert Normalize("/", cwd) == Ok([]) by { DisplayThenNormalize([], cwd); }
    if piece != "" { assert piece[0] in piece; }
    assert '\0' in path + "\0" + piece by { assert (path + "\0" + piece)[|path|] == '\0'; }
  }

  // ----- reading back what was displayed -----

  lemma {:induction false} SplitWhole(name: string)
    requires '/' !in name
    ensures Split(name) == [name]
  {
    if name != [] {
      SplitWhole(name[1..]);
      assert name == [name[0]] + name[1..];
    }
  }

  lemma {:induction false} SplitFirst(name: string, rest: string)
    requires '/' !in name
    ensures Split(name + "/" + rest) == [name] + Split(rest)
  {
    var s := name + "/" + rest;
    if name == [] {
      assert s[1..] == rest;
    } else {
      SplitFirst(name[1..], rest);
      assert s[1..] == name[1..] + "/" + rest;
      assert name == [name[0]] + name[1..];
    }
  }

  lemma {:induction false} SplitJoin(names: Names)
    requires names != [] && forall i :: 0 <= i < |names| ==> '/' !in names[i]
    ensures Split(Join(names)) == names
  {
    if |names| == 1 {
      SplitWhole(names[0]);
    } else {
      SplitJoin(names[1..]);
      SplitFirst(names[0], Join(names[1..]));
    }
  }

  lemma {:induction false} WalkProper(names: Names)
    requires AllProper(names)
    ensures Walk([""] + names) == Some(names)
  {
    var pieces := [""] + names;
    if names == [] {
      assert pieces[..0] == [];
    } else {
      var n := |names| - 1;
      assert pieces[..|pieces| - 1] == [""] + names[..n];
      WalkProper(names[..n]);
      assert names == names[..n] + [names[n]];
    }
  }

  lemma {:induction false} JoinHasNoNul(names: Names)
    requires names != [] && AllProper(names)
    ensures '\0' !in Join(names)
  {
    if |names| > 1 { JoinHasNoNul(names[1..]); }
  }

  /** Displaying a path and resolving the text again, from anywhere, gives the same path. */
  lemma DisplayThenNormalize(names: Names, cwd: string)
    requires AllProper(names)
    ensures Normalize(Display(names), cwd) == Ok(names)
  {
    if names == [] {
      assert Split("/") == [[], []] by { assert "/"[1..] == ""; }
      assert [[], []] == [""] + [""];
      assert Walk([""]) == Some([]) by { WalkProper([]); assert [""] + [] == [""]; }
      assert ([""] + [""])[..1] == [""];
    } else {
      JoinHasNoNul(names);
      SplitJoin(names);
      assert Display(names) == "" + "/" + Join(names);
      SplitFirst("", Join(names));
      WalkProper(names);
    }
  }

  lemma {:induction false} PiecesClean(s: string)
    ensures forall i :: 0 <= i < |Split(s)| ==> '/' !in Split(s)[i] && ('\0' !in s ==> '\0' !in Split(s)[i])
  {
    if s != [] { PiecesClean(s[1..]); }
  }

  lemma {:induction false} WalkIsProper(pieces: seq<string>)
    requires forall i :: 0 <= i < |pieces| ==> '/' !in pieces[i] && '\0' !in pieces[i]
    ensures Walk(pieces).Some? ==> AllProper(Walk(pieces).value)
  {
    if pieces != [] { WalkIsProper(pieces[..|pieces| - 1]); }
  }

  /** A resolved path consists of proper names, so it can be displayed and read back. */
  lemma NormalizeProper(path: string, cwd: string)
    requires '\0' !in cwd
    ensures Normalize(path, cwd).Ok? ==> AllProper(Normalize(path, cwd).value)
  {
    if path != "" && '\0' !in path {
      PiecesClean(Absolute(path, cwd));
      WalkIsProper(Split(Absolute(path, cwd)));
    }
  }

  /** Two resolved paths with the same text are the same path. */
  lemma DisplayInjective(a: Names, b: Names)
    requires AllProper(a) && AllProper(b) && Display(a) == Display(b)
    ensures a == b
  {
    DisplayThenNormalize(a, "/");
    DisplayThenNormalize(b, "/");
  }

  /** Resolving is a projection: the text of a resolved path resolves to the same path. */
  lemma NormalizeStable(path: string, cwd: string, other: string)
    requires '\0' !in cwd && Normalize(path, cwd).Ok?
    ensures Normalize(Display(Normalize(path, cwd).value), other) == Normalize(path, cwd)
  {
    NormalizeProper(path, cwd);
    DisplayThenNormalize(Normalize(path, cwd).value, other);
  }
}
