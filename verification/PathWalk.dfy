/** Where an accepted path leads, read character by character. */
module PathWalk {
  import opened Common
  import opened DownloadPath

  /** The pieces between the slashes, empty ones included. */
  function Pieces(path: string): (r: seq<string>)
    ensures r != []
  {
    if path == [] then [""]
    else
      var r := Pieces(path[1..]);
      if path[0] == '/' then [""] + r else [[path[0]] + r[0]] + r[1..]
  }

  /** The directory reached from `at`, below the root, as the system walks: an empty piece or "."
      stays, ".." goes up. None when that would leave the root. */
  function Walk(at: seq<string>, pieces: seq<string>): Option<seq<string>>
    decreases |pieces|
  {
    if pieces == [] then Some(at)
    else
      var p := pieces[0];
      if p == "" || p == "." then Walk(at, pieces[1..])
      else if p == ".." then if at == [] then None else Walk(at[..|at| - 1], pieces[1..])
      else Walk(at + [p], pieces[1..])
  }

  lemma {:induction false} PiecesOfWord(word: string, rest: string)
    requires forall i :: 0 <= i < |word| ==> word[i] != '/'
    ensures Pieces(word + rest) == [word + Pieces(rest)[0]] + Pieces(rest)[1..]
  {
    var r := Pieces(rest);
    if word == [] {
      assert word + rest == rest && word + r[0] == r[0];
      assert r == [r[0]] + r[1..];
    } else {
      assert (word + rest)[1..] == word[1..] + rest && (word + rest)[0] == word[0];
      PiecesOfWord(word[1..], rest);
      hide Pieces;
      PiecesUnfold(word + rest);
      assert [word[0]] + (word[1..] + r[0]) == word + r[0];
    }
  }

  lemma PiecesUnfold(path: string)
    requires path != [] && path[0] != '/'
    ensures Pieces(path) == [[path[0]] + Pieces(path[1..])[0]] + Pieces(path[1..])[1..]
  {
  }

  lemma PiecesAfterSlash(rest: string)
    ensures Pieces("/" + rest) == [""] + Pieces(rest) && Pieces("") == [""]
  {
    assert ("/" + rest)[1..] == rest;
  }

  lemma JoinUnfold(name: string, rest: seq<string>)
    ensures Join([name] + rest) == if rest == [] then name else name + ("/" + Join(rest))
  {
    assert ([name] + rest)[1..] == rest;
    assert rest != [] ==> name + "/" + Join(rest) == name + ("/" + Join(rest));
  }

  lemma {:induction false} PiecesOfJoin(parts: seq<string>)
    requires parts != [] && AllValid(parts)
    ensures Pieces(Join(parts)) == parts
  {
    var name, rest := parts[0], parts[1..];
    assert ValidName(name) && parts == [name] + rest;
    var more := if rest == [] then "" else "/" + Join(rest);
    JoinUnfold(name, rest);
    PiecesOfWord(name, more);
    if rest != [] {
      PiecesOfJoin(rest);
    }
    hide Pieces, Join, ValidName;
    PiecesAfterSlash(Join(rest));
    assert name + more == if rest == [] then name else name + ("/" + Join(rest));
    assert name + "" == name;
  }

  lemma {:induction false} JoinOfPieces(path: string)
    ensures Join(Pieces(path)) == path
  {
    if path != [] {
      var q := path[1..];
      var r := Pieces(q);
      JoinOfPieces(q);
      hide Join;
      assert path == [path[0]] + q && r == [r[0]] + r[1..];
      JoinUnfold(r[0], r[1..]);
      if path[0] == '/' {
        JoinUnfold("", r);
        assert "" + ("/" + q) == path;
      } else {
        JoinUnfold([path[0]] + r[0], r[1..]);
        JoinOne([path[0]], r[0], r[1..]);
      }
    }
  }

  lemma JoinOne(c: string, name: string, rest: seq<string>)
    ensures Join([c + name] + rest) == c + Join([name] + rest)
  {
    JoinUnfold(c + name, rest);
    JoinUnfold(name, rest);
    hide Join;
    if rest != [] {
      assert c + (name + ("/" + Join(rest))) == (c + name) + ("/" + Join(rest));
    }
  }

  // One to 240 characters, none of them a slash, a backslash or a control character, and not a dot
  // or two.
  predicate Usable(name: string) {
    && 1 <= |name| <= 240 && name != "." && name != ".."
    && forall c :: c in name ==> c >= ' ' && c as int != 127 && c != '/' && c != '\\'
  }

  lemma UsableNames(names: seq<string>)
    ensures AllValid(names) <==> forall i :: 0 <= i < |names| ==> Usable(names[i])
  {
    forall i | 0 <= i < |names| ensures ValidName(names[i]) <==> Usable(names[i]) {
      var name := names[i];
      assert forall k :: 0 <= k < |name| ==> name[k] in name;
    }
  }

  /** A path is accepted exactly when it is short enough and every piece of it is a usable name. */
  lemma AcceptedExactly(path: string)
    ensures (exists parts :: IsPath(path, parts)) <==>
            |path| <= 1024 && forall i :: 0 <= i < |Pieces(path)| ==> Usable(Pieces(path)[i])
  {
    JoinOfPieces(path);
    UsableNames(Pieces(path));
    hide Pieces, Join, AllValid, Usable;
    if parts :| IsPath(path, parts) {
      PiecesOfJoin(parts);
    }
    if |path| <= 1024 && AllValid(Pieces(path)) {
      assert IsPath(path, Pieces(path));
    }
  }

  lemma {:induction false} WalkNames(at: seq<string>, names: seq<string>)
    requires AllValid(names)
    ensures Walk(at, names) == Some(at + names)
    decreases |names|
  {
    if names == [] {
      assert at + names == at;
    } else {
      assert ValidName(names[0]);
      WalkNames(at + [names[0]], names[1..]);
      assert at + [names[0]] + names[1..] == at + names;
    }
  }

  /** An accepted path is relative, and walking it never leaves the root: it goes down through its
      names, one after the other. */
  lemma StaysInside(path: string, parts: seq<string>)
    requires IsPath(path, parts)
    ensures path != "" && path[0] != '/' && Split(path) == parts && Walk([], Pieces(path)) == Some(parts)
  {
    FirstOfJoin(parts);
    SplitJoin(parts);
    PiecesOfJoin(parts);
    WalkNames([], parts);
    assert [] + parts == parts;
    hide Walk, Pieces, Split, Join, AllValid;
  }
}
