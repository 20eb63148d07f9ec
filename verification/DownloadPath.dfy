/** web_server_common.cpp: splitting a path and checking it by counting characters. */
module DownloadPath {

  predicate ControlChar(c: char) { c < ' ' || c == 127 as char }

  /** valid_upload_filename */
  predicate ValidName(name: string) {
    && 0 < |name| <= 240 && name != "." && name != ".."
    && forall i :: 0 <= i < |name| ==> name[i] != '/' && name[i] != '\\' && !ControlChar(name[i])
  }

  // The leading slashes of a path.
  function Slashes(path: string): (n: nat)
    ensures n <= |path| && (n < |path| ==> path[n] != '/')
  {
    if path == [] || path[0] != '/' then 0 else 1 + Slashes(path[1..])
  }

  // Its first component, when it starts with one.
  function WordLength(path: string): (n: nat)
    ensures n <= |path| && (n < |path| ==> path[n] == '/')
    ensures path != [] && path[0] != '/' ==> n > 0
  {
    if path == [] || path[0] == '/' then 0 else 1 + WordLength(path[1..])
  }

  function Split(path: string): seq<string>
    decreases |path|
  {
    var p := path[Slashes(path)..];
    if p == [] then [] else [p[..WordLength(p)]] + Split(p[WordLength(p)..])
  }

  function Join(parts: seq<string>): string {
    if parts == [] then "" else if |parts| == 1 then parts[0] else parts[0] + "/" + Join(parts[1..])
  }

  // What the parts account for: their characters and one slash between any two.
  function Represented(parts: seq<string>): nat {
    if |parts| <= 1 then (if parts == [] then 0 else |parts[0]|) else |parts[0]| + 1 + Represented(parts[1..])
  }

  lemma {:induction false} JoinLength(parts: seq<string>)
    ensures |Join(parts)| == Represented(parts)
  {
    if |parts| > 1 {
      JoinLength(parts[1..]);
    }
  }

  lemma SplitSlash(rest: string)
    ensures Split("/" + rest) == Split(rest)
  {
    var p := "/" + rest;
    assert p[1..] == rest;
    assert p[1 + Slashes(rest)..] == rest[Slashes(rest)..];
  }

  lemma {:induction false} WordLengthOf(name: string, rest: string)
    requires (forall i :: 0 <= i < |name| ==> name[i] != '/') && (rest != [] ==> rest[0] == '/')
    ensures WordLength(name + rest) == |name|
  {
    var p := name + rest;
    if name != [] {
      assert p[0] == name[0] && p[1..] == name[1..] + rest;
      WordLengthOf(name[1..], rest);
    }
  }

  predicate AllValid(parts: seq<string>) { forall i :: 0 <= i < |parts| ==> ValidName(parts[i]) }

  /** Splitting undoes joining, for components that are valid names. */
  lemma {:induction false} SplitJoin(parts: seq<string>)
    requires AllValid(parts)
    ensures Split(Join(parts)) == parts
  {
    if parts != [] {
      var path := Join(parts);
      var rest := if |parts| == 1 then "" else "/" + Join(parts[1..]);
      assert path == parts[0] + rest;
      assert ValidName(parts[0]);
      WordLengthOf(parts[0], rest);
      assert path[0] == parts[0][0];
      assert path[..|parts[0]|] == parts[0] && path[|parts[0]|..] == rest;
      assert path[0..] == path;
      if |parts| == 1 {
        assert Split(rest) == [];
      } else {
        SplitJoin(parts[1..]);
        SplitSlash(Join(parts[1..]));
      }
    }
  }

  /** The characters of the parts never exceed the path's, and they are as many only if the path
      is exactly the parts with single slashes between them. */
  lemma {:induction false} SplitAccounts(path: string)
    ensures Represented(Split(path)) <= |path|
    ensures Represented(Split(path)) == |path| ==> Join(Split(path)) == path
    decreases |path|
  {
    var k := Slashes(path);
    var p := path[k..];
    if p != [] {
      var word, rest := p[..WordLength(p)], p[WordLength(p)..];
      assert p == word + rest;
      SplitFirst(path);
      hide Split, Slashes, WordLength, Represented, Join;
      WordFirst(path, k, word, rest);
      if rest == [] {
        SplitNothing();
        OneAccounted(word, []);
      } else {
        var rest' := rest[1..];
        assert rest == "/" + rest';
        SplitSlash(rest');
        SplitAccounts(rest');
        OneAccounted(word, Split(rest'));
      }
    }
  }

  lemma SplitFirst(path: string)
    requires path[Slashes(path)..] != []
    ensures var p := path[Slashes(path)..];
            Split(path) == [p[..WordLength(p)]] + Split(p[WordLength(p)..]) && WordLength(p) > 0
  {
  }

  // How a path is made of its leading slashes, its first word and the rest.
  lemma WordFirst(path: string, k: nat, word: string, rest: string)
    requires k <= |path| && path[k..] == word + rest
    ensures |path| == k + |word| + |rest| && (k == 0 ==> path == word + rest)
    ensures rest == [] ==> word + rest == word
    ensures rest != [] ==> word + rest == word + [rest[0]] + rest[1..]
  {
  }

  lemma OneAccounted(word: string, parts: seq<string>)
    ensures Represented([word] + parts) == |word| + if parts == [] then 0 else 1 + Represented(parts)
    ensures Join([word] + parts) == if parts == [] then word else word + "/" + Join(parts)
  {
    assert ([word] + parts)[1..] == parts;
  }

  // One round of the loop of split_path.
  lemma SplitAt(path: string, start: nat, mid: nat, end: nat)
    requires start <= |path| && mid == start + Slashes(path[start..]) && end == mid + WordLength(path[mid..])
    ensures Split(path[start..]) == if mid == |path| then [] else [path[mid..end]] + Split(path[end..])
  {
    var from, p := path[start..], path[mid..];
    assert from[Slashes(from)..] == p;
    assert p[..WordLength(p)] == path[mid..end] && p[WordLength(p)..] == path[end..];
  }

  lemma Regroup(done: seq<string>, part: string, rest: seq<string>)
    ensures done + ([part] + rest) == (done + [part]) + rest
  {
  }

  lemma SplitNothing()
    ensures Split([]) == []
  {
  }

  method SplitPath(path: string) returns (result: seq<string>)
    ensures result == Split(path)
  {
    hide Split, Slashes, WordLength;
    result := [];
    var start := 0;
    assert path[0..] == path && [] + Split(path) == Split(path);
    while start < |path|
      invariant 0 <= start <= |path|
      invariant result + Split(path[start..]) == Split(path)
    {
      var mid := SkipSlashes(path, start);
      var end := FindSlash(path, mid);
      SplitAt(path, start, mid, end);
      if mid == |path| {
        return;
      }
      FoundLater(path, mid, end);
      Regroup(result, path[mid..end], Split(path[end..]));
      result := result + [path[mid..end]];
      start := end;
    }
    assert path[start..] == [];
    SplitNothing();
  }

  lemma FoundLater(path: string, mid: nat, end: nat)
    requires mid < |path| && end == mid + WordLength(path[mid..]) && path[mid] != '/'
    ensures mid < end
  {
  }

  method SkipSlashes(path: string, from: nat) returns (start: nat)
    requires from <= |path|
    ensures start == from + Slashes(path[from..]) <= |path| && start >= from
    ensures start < |path| ==> path[start] != '/'
  {
    start := from;
    while start < |path| && path[start] == '/'
      invariant from <= start <= |path|
      invariant from + Slashes(path[from..]) == start + Slashes(path[start..])
    {
      assert path[start..][1..] == path[start + 1..];
      start := start + 1;
    }
  }

  // std::string_view::find, with the length for npos.
  method FindSlash(path: string, from: nat) returns (end: nat)
    requires from <= |path|
    ensures end == from + WordLength(path[from..]) <= |path| && end >= from
  {
    end := from;
    while end < |path| && path[end] != '/'
      invariant from <= end <= |path|
      invariant from + WordLength(path[from..]) == end + WordLength(path[end..])
    {
      assert path[end..][1..] == path[end + 1..];
      end := end + 1;
    }
  }

  /** The path is these valid names, separated by single slashes. */
  predicate IsPath(path: string, parts: seq<string>) {
    parts != [] && AllValid(parts) && Join(parts) == path && |path| <= 1024
  }

  // The count after the first n parts.
  function Counted(parts: seq<string>, n: nat): int
    requires n <= |parts|
  {
    if n == 0 then |parts| - 1 else Counted(parts, n - 1) + |parts[n - 1]|
  }

  lemma {:induction false} CountedShift(parts: seq<string>, n: nat)
    requires 0 < n <= |parts|
    ensures Counted(parts, n) == |parts[0]| + 1 + Counted(parts[1..], n - 1)
  {
    if n > 1 {
      CountedShift(parts, n - 1);
    }
  }

  lemma {:induction false} CountedAll(parts: seq<string>)
    requires parts != []
    ensures Counted(parts, |parts|) == Represented(parts)
  {
    CountedShift(parts, |parts|);
    if |parts| > 1 {
      CountedAll(parts[1..]);
    }
  }

  /** Accepted exactly when the path is a list of valid names joined by single slashes; those
      names are then what splitting it gives. */
  method ValidDownloadPath(path: string) returns (ok: bool)
    ensures ok <==> exists parts :: IsPath(path, parts)
    ensures ok ==> IsPath(path, Split(path))
  {
    hide ValidName, Split, Represented, Counted;
    if e :| IsPath(path, e) {
      SplitJoin(e);
      FirstOfJoin(e);
    }
    if path == [] || |path| > 1024 || path[0] == '/' {
      return false;
    }
    var parts := SplitPath(path);
    if parts == [] {
      return false;
    }
    var represented := |parts| - 1;
    CountedNone(parts);
    for i := 0 to |parts|
      invariant forall k :: 0 <= k < i ==> ValidName(parts[k])
      invariant represented == Counted(parts, i)
    {
      if !ValidName(parts[i]) {
        return false;
      }
      CountedNext(parts, i);
      represented := represented + |parts[i]|;
    }
    CountedAll(parts);
    JoinLength(parts);
    SplitAccounts(path);
    ok := represented == |path|;
    assert ok ==> IsPath(path, parts);
  }

  lemma CountedNone(parts: seq<string>)
    ensures Counted(parts, 0) == |parts| - 1
  {
  }

  lemma CountedNext(parts: seq<string>, i: nat)
    requires i < |parts|
    ensures Counted(parts, i + 1) == Counted(parts, i) + |parts[i]|
  {
  }

  lemma FirstOfJoin(parts: seq<string>)
    requires parts != [] && AllValid(parts)
    ensures Join(parts) != [] && Join(parts)[0] != '/'
  {
    assert ValidName(parts[0]);
    assert Join(parts)[0] == parts[0][0];
  }
}
