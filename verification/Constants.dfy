/** util.c: constant expressions in policies: literals, complement, union and parentheses. */
module Constants {
  import opened Common

  // parse_single_constant: a named constant or a number. The empty token is never one.
  type Literals = string -> Option<bv64>

  function Literal(c: Literals, tok: string): Option<bv64> {
    if tok == "" then None else c(tok)
  }

  // ----- tokens -----

  // Index of the first character ch at or after i; |s| when there is none.
  function Find(s: string, ch: char, i: nat): (k: nat)
    requires i <= |s|
    ensures i <= k <= |s| && (k < |s| ==> s[k] == ch)
    ensures forall j :: i <= j < k ==> s[j] != ch
    decreases |s| - i
  {
    if i == |s| || s[i] == ch then i else Find(s, ch, i + 1)
  }

  /** tokenize with delimiter "|": the token, and what follows the delimiter. */
  function Tokenize(s: string): (string, string) {
    var k := Find(s, '|', 0);
    if k == |s| then (s, "") else (s[..k], s[k + 1..])
  }

  // Index where the parenthesis depth, now `depth`, comes down to zero; |s| when it never does.
  function CloseAt(s: string, i: nat, depth: nat): (k: nat)
    requires i <= |s| && depth > 0
    ensures i <= k <= |s|
    decreases |s| - i
  {
    if i == |s| then i
    else if s[i] == '(' then CloseAt(s, i + 1, depth + 1)
    else if s[i] == ')' then (if depth == 1 then i else CloseAt(s, i + 1, depth - 1))
    else CloseAt(s, i + 1, depth)
  }

  /** tokenize_parenthesized_expression on a string that starts with '(': the group's inside and
      what follows it. */
  function TokenizeGroup(s: string): Option<(string, string)>
    requires s != "" && s[0] == '('
  {
    var k := CloseAt(s, 1, 1);
    if k == |s| then None else Some((s[1..k], s[k + 1..]))
  }

  // ----- the parser -----

  function Union(x: bv64, y: bv64): bv64 { x | y }

  function Negated(neg: bool, v: bv64): bv64 { if neg then !v else v }

  /** parse_constant: None is an error. */
  function Parse(c: Literals, s: string): Option<bv64>
    decreases |s|, 2
  {
    if s == "" then None else ParseFrom(c, s, 0)
  }

  // The loop of parse_constant, `value` being the union so far.
  function ParseFrom(c: Literals, s: string, value: bv64): Option<bv64>
    decreases |s|, 1
  {
    if s == "" then Some(value)
    else
      match ParseTerm(c, s)
      case None => None
      case Some((v, rest)) => ParseFrom(c, rest, Union(value, v))
  }

  // One turn of the loop: the term's value and the text left.
  function ParseTerm(c: Literals, s: string): (r: Option<(bv64, string)>)
    requires s != ""
    ensures r.Some? ==> |r.value.1| < |s|
    decreases |s|, 0
  {
    var neg := s[0] == '~';
    var t := if neg then s[1..] else s;
    if t != "" && t[0] == '(' then
      match TokenizeGroup(t)
      case None => None
      case Some((group, rest)) =>
        match Parse(c, group)
        case None => None
        case Some(v) =>
          if rest == "" then Some((Negated(neg, v), ""))
          else if rest[0] != '|' || |rest| == 1 then None
          else Some((Negated(neg, v), rest[1..]))
    else
      var (tok, rest) := Tokenize(t);
      match Literal(c, tok)
      case None => None
      case Some(v) => Some((Negated(neg, v), rest))
  }

  // ----- expressions and their text -----

  /** A union of terms; a term is a literal or a parenthesized expression, maybe complemented. */
  datatype Expr = One(term: Term) | Or(term: Term, rest: Expr)

  datatype Term = Lit(neg: bool, tok: string) | Group(neg: bool, inner: Expr)

  function Print(e: Expr): string {
    match e
    case One(t) => PrintTerm(t)
    case Or(t, rest) => PrintTerm(t) + ("|" + Print(rest))
  }

  function PrintTerm(t: Term): string {
    (if t.neg then "~" else "") + match t case Lit(_, tok) => tok case Group(_, e) => "(" + Print(e) + ")"
  }

  // A token that is a literal and cannot be mistaken for anything else.
  predicate GoodToken(c: Literals, tok: string) {
    && Literal(c, tok).Some? && tok[0] != '~'
    && forall i :: 0 <= i < |tok| ==> tok[i] != '|' && tok[i] != '(' && tok[i] != ')'
  }

  predicate Good(c: Literals, e: Expr) {
    match e
    case One(t) => GoodTerm(c, t)
    case Or(t, rest) => GoodTerm(c, t) && Good(c, rest)
  }

  predicate GoodTerm(c: Literals, t: Term) {
    match t case Lit(_, tok) => GoodToken(c, tok) case Group(_, e) => Good(c, e)
  }

  /** The bits an expression stands for. */
  function Denote(c: Literals, e: Expr): bv64
    requires Good(c, e)
  {
    match e
    case One(t) => DenoteTerm(c, t)
    case Or(t, rest) => Union(DenoteTerm(c, t), Denote(c, rest))
  }

  function DenoteTerm(c: Literals, t: Term): bv64
    requires GoodTerm(c, t)
  {
    match t
    case Lit(neg, tok) => Negated(neg, Literal(c, tok).value)
    case Group(neg, e) => Negated(neg, Denote(c, e))
  }

  // ----- the text of an expression is balanced -----

  // Scanning `mid`, which stands at i in s, at any depth, ends behind it at the same depth.
  ghost predicate Skips(mid: string) {
    forall pre: string, post: string, depth: nat :: depth > 0 ==>
      CloseAt(pre + mid + post, |pre|, depth) == CloseAt(pre + mid + post, |pre| + |mid|, depth)
  }

  lemma SkipsConcat(a: string, b: string)
    requires Skips(a) && Skips(b)
    ensures Skips(a + b)
  {
    forall pre: string, post: string, depth: nat | depth > 0
      ensures CloseAt(pre + (a + b) + post, |pre|, depth) == CloseAt(pre + (a + b) + post, |pre| + |a + b|, depth)
    {
      var x := pre + (a + b) + post;
      assert x == pre + a + (b + post) && x == (pre + a) + b + post;
      assert CloseAt(pre + a + (b + post), |pre|, depth) == CloseAt(pre + a + (b + post), |pre| + |a|, depth);
      assert CloseAt((pre + a) + b + post, |pre + a|, depth) == CloseAt((pre + a) + b + post, |pre + a| + |b|, depth);
    }
  }

  lemma {:induction false} PlainSkips(tok: string)
    requires forall i :: 0 <= i < |tok| ==> tok[i] != '(' && tok[i] != ')'
    ensures Skips(tok)
  {
    if tok != "" {
      PlainSkips(tok[1..]);
      CharSkips(tok[0]);
      SkipsConcat([tok[0]], tok[1..]);
      assert tok == [tok[0]] + tok[1..];
    }
  }

  lemma CharSkips(ch: char)
    requires ch != '(' && ch != ')'
    ensures Skips([ch])
  {
    forall pre: string, post: string, depth: nat | depth > 0
      ensures CloseAt(pre + [ch] + post, |pre|, depth) == CloseAt(pre + [ch] + post, |pre| + |[ch]|, depth)
    {
      assert (pre + [ch] + post)[|pre|] == ch;
    }
  }

  lemma GroupSkips(a: string)
    requires Skips(a)
    ensures Skips("(" + a + ")")
  {
    var g := "(" + a + ")";
    forall pre: string, post: string, depth: nat | depth > 0
      ensures CloseAt(pre + g + post, |pre|, depth) == CloseAt(pre + g + post, |pre| + |g|, depth)
    {
      var x := pre + g + post;
      assert x == (pre + "(") + a + (")" + post);
      assert x[|pre|] == '(' && x[|pre| + 1 + |a|] == ')';
      assert CloseAt((pre + "(") + a + (")" + post), |pre + "("|, depth + 1) ==
             CloseAt((pre + "(") + a + (")" + post), |pre + "("| + |a|, depth + 1);
    }
  }

  lemma {:induction false} PrintSkips(c: Literals, e: Expr)
    requires Good(c, e)
    ensures Skips(Print(e))
  {
    TermSkips(c, e.term);
    if e.Or? {
      PrintSkips(c, e.rest);
      CharSkips('|');
      SkipsConcat("|", Print(e.rest));
      SkipsConcat(PrintTerm(e.term), "|" + Print(e.rest));
    }
  }

  lemma {:induction false} TermSkips(c: Literals, t: Term)
    requires GoodTerm(c, t)
    ensures Skips(PrintTerm(t))
  {
    var body := match t case Lit(_, tok) => tok case Group(_, e) => "(" + Print(e) + ")";
    match t {
      case Lit(_, tok) => PlainSkips(tok);
      case Group(_, e) =>
        PrintSkips(c, e);
        GroupSkips(Print(e));
    }
    if t.neg {
      CharSkips('~');
      SkipsConcat("~", body);
    } else {
      assert "" + body == body;
    }
  }

  // ----- parsing the text of an expression -----

  // What may follow a term: nothing, or a pipe and more.
  predicate Follows(tail: string) { tail == "" || (|tail| > 1 && tail[0] == '|') }

  function AfterPipe(tail: string): string { if tail == "" then "" else tail[1..] }

  lemma FindSkips(tok: string, tail: string, i: nat)
    requires i <= |tok| && Follows(tail)
    requires forall k :: 0 <= k < |tok| ==> tok[k] != '|'
    ensures Find(tok + tail, '|', i) == |tok|
    decreases |tok| - i
  {
    if i < |tok| {
      assert (tok + tail)[i] == tok[i];
      FindSkips(tok, tail, i + 1);
    } else if tail != "" {
      assert (tok + tail)[i] == '|';
    }
  }

  lemma TokenBack(tok: string, tail: string)
    requires Follows(tail) && forall k :: 0 <= k < |tok| ==> tok[k] != '|'
    ensures Tokenize(tok + tail) == (tok, AfterPipe(tail))
  {
    FindSkips(tok, tail, 0);
    assert (tok + tail)[..|tok|] == tok && tok + "" == tok;
    assert tail != "" ==> (tok + tail)[|tok| + 1..] == tail[1..];
  }

  lemma GroupBack(inner: string, tail: string)
    requires Skips(inner)
    ensures var s := "(" + inner + ")" + tail;
            TokenizeGroup(s) == Some((inner, tail))
  {
    var s := "(" + inner + ")" + tail;
    assert s == "(" + inner + (")" + tail);
    assert CloseAt("(" + inner + (")" + tail), |"("|, 1) == CloseAt("(" + inner + (")" + tail), |"("| + |inner|, 1);
    assert s[1 + |inner|] == ')';
    assert s[1..1 + |inner|] == inner && s[1 + |inner| + 1..] == tail;
  }

  // A term without its complement sign.
  function Unsigned(t: Term): string { match t case Lit(_, tok) => tok case Group(_, e) => "(" + Print(e) + ")" }

  lemma SignBack(t: Term, c: Literals, tail: string)
    requires GoodTerm(c, t)
    ensures var s, u := PrintTerm(t) + tail, Unsigned(t) + tail;
            s != "" && (s[0] == '~' <==> t.neg) && (if t.neg then s[1..] else s) == u
  {
    var u := Unsigned(t);
    assert u != "" && u[0] != '~';
    if t.neg {
      assert PrintTerm(t) + tail == "~" + (u + tail);
    } else {
      assert PrintTerm(t) == u;
    }
  }

  lemma {:induction false} TermBack(c: Literals, t: Term, tail: string)
    requires GoodTerm(c, t) && Follows(tail)
    ensures ParseTerm(c, PrintTerm(t) + tail) == Some((DenoteTerm(c, t), AfterPipe(tail)))
  {
    SignBack(t, c, tail);
    match t {
      case Lit(_, tok) =>
        TokenBack(tok, tail);
        assert (tok + tail)[0] == tok[0];
      case Group(_, e) =>
        PrintSkips(c, e);
        GroupBack(Print(e), tail);
        ParsePrint(c, e);
    }
  }

  lemma PrintNotEmpty(c: Literals, e: Expr)
    requires Good(c, e)
    ensures Print(e) != ""
  {
    SignBack(e.term, c, "");
    assert PrintTerm(e.term) + "" == PrintTerm(e.term);
  }

  lemma {:induction false} ParseFromPrint(c: Literals, e: Expr, value: bv64)
    requires Good(c, e)
    ensures ParseFrom(c, Print(e), value) == Some(Union(value, Denote(c, e)))
  {
    hide ParseTerm, PrintTerm, Union, DenoteTerm;
    PrintNotEmpty(c, e);
    match e {
      case One(t) =>
        TermBack(c, t, "");
        assert PrintTerm(t) + "" == PrintTerm(t);
      case Or(t, rest) =>
        var tail := "|" + Print(rest);
        PrintNotEmpty(c, rest);
        TermBack(c, t, tail);
        assert tail[1..] == Print(rest);
        ParseFromPrint(c, rest, Union(value, DenoteTerm(c, t)));
        UnionAssoc(value, DenoteTerm(c, t), Denote(c, rest));
    }
  }

  lemma UnionAssoc(x: bv64, y: bv64, z: bv64)
    ensures Union(Union(x, y), z) == Union(x, Union(y, z))
  {
  }

  lemma ZeroUnion(x: bv64)
    ensures Union(0, x) == x
  {
  }

  /** Parsing the text of an expression gives the bits it stands for, at any nesting depth. */
  lemma {:induction false} ParsePrint(c: Literals, e: Expr)
    requires Good(c, e)
    ensures Parse(c, Print(e)) == Some(Denote(c, e))
  {
    PrintNotEmpty(c, e);
    ParseFromPrint(c, e, 0);
    ZeroUnion(Denote(c, e));
  }

  // ----- texts that are refused -----

  function Signed(neg: bool, body: string): string { if neg then "~" + body else body }

  // What a first term without its sign is refused for.
  predicate BadStart(c: Literals, body: string) {
    || body == ""
    || (body[0] != '(' && body[0] != '~' && c(Tokenize(body).0).None?)
    || (body[0] == '(' && CloseAt(body, 1, 1) == |body|)
    || (body[0] == '(' && CloseAt(body, 1, 1) < |body| && BadEnd(body[CloseAt(body, 1, 1) + 1..]))
  }

  // A group is followed by nothing, or by a pipe and more.
  predicate BadEnd(tail: string) { tail != "" && (tail[0] != '|' || |tail| == 1) }

  lemma TermRefused(c: Literals, s: string)
    requires s != "" && ParseTerm(c, s) == None
    ensures Parse(c, s) == None
  {
  }

  /** Nothing is refused, and so is a text that starts with a token that is no literal, with a group that
      is not closed, or with one that is followed by anything but a pipe and more. */
  lemma Refused(c: Literals, neg: bool, body: string)
    requires BadStart(c, body)
    ensures Parse(c, Signed(neg, body)) == None
  {
    var s := Signed(neg, body);
    if s != "" {
      assert (s[0] == '~') == neg && (if neg then s[1..] else s) == body;
      hide Parse, CloseAt;
      assert ParseTerm(c, s) == None;
      TermRefused(c, s);
    }
  }

  // ----- bit by bit -----

  // a has no bits that m has not.
  predicate Part(a: bv64, m: bv64) { a & m == a }

  /** A word with a single bit: it has no parts but nothing and itself. */
  ghost predicate OneBit(m: bv64) { m != 0 && forall a :: Part(a, m) ==> a == 0 || a == m }

  predicate Has(v: bv64, m: bv64) { v & m != 0 }

  lemma ShiftedPart(a: bv64, m: bv64, d: bv64)
    requires d == m << 1 && Part(a, d)
    ensures Part(a >> 1, m)
  {
  }

  lemma ShiftedBack(a: bv64, m: bv64, d: bv64)
    requires d == m << 1 && Part(a, d)
    ensures a >> 1 == 0 ==> a == 0
    ensures a >> 1 == m ==> a == d
  {
  }

  lemma ShiftedOut(m: bv64)
    ensures m << 1 == 0 ==> m == 0 || m == 0x8000_0000_0000_0000
  {
  }

  /** 1, 2, 4, and so on up to the highest bit are such words. */
  lemma Bits(m: bv64, d: bv64)
    requires d == m << 1
    ensures OneBit(1)
    ensures OneBit(m) && m != 0x8000_0000_0000_0000 ==> OneBit(d)
  {
    LowBit();
    if OneBit(m) && m != 0x8000_0000_0000_0000 {
      ShiftedOut(m);
      hide Part;
      forall a | Part(a, d) ensures a == 0 || a == d {
        ShiftedPart(a, m, d);
        ShiftedBack(a, m, d);
      }
    }
  }

  lemma LowBit()
    ensures OneBit(1)
  {
  }

  /** Whether the expression sets a bit: a literal sets its own, a union those of either side, and a
      complement those the rest does not. */
  predicate Sets(c: Literals, e: Expr, m: bv64)
    requires Good(c, e)
  {
    match e
    case One(t) => TermSets(c, t, m)
    case Or(t, rest) => TermSets(c, t, m) || Sets(c, rest, m)
  }

  predicate TermSets(c: Literals, t: Term, m: bv64)
    requires GoodTerm(c, t)
  {
    match t
    case Lit(neg, tok) => Has(c(tok).value, m) != neg
    case Group(neg, e) => Sets(c, e, m) != neg
  }

  lemma UnionMask(x: bv64, y: bv64, m: bv64)
    ensures Union(x, y) & m == Union(x & m, y & m)
  {
  }

  lemma UnionZero(a: bv64, b: bv64)
    ensures Union(a, b) == 0 <==> a == 0 && b == 0
  {
  }

  lemma UnionBit(x: bv64, y: bv64, m: bv64)
    ensures Has(Union(x, y), m) <==> Has(x, m) || Has(y, m)
  {
    UnionMask(x, y, m);
    UnionZero(x & m, y & m);
    hide Union;
  }

  lemma MaskPart(v: bv64, m: bv64)
    ensures Part(v & m, m)
  {
  }

  lemma MaskAbsent(v: bv64, m: bv64)
    ensures v & m == 0 ==> !v & m == m
  {
  }

  lemma MaskPresent(v: bv64, m: bv64)
    ensures v & m == m ==> !v & m == 0
  {
  }

  lemma NegatedBit(neg: bool, v: bv64, m: bv64)
    requires OneBit(m)
    ensures Has(Negated(neg, v), m) <==> Has(v, m) != neg
  {
    MaskPart(v, m);
    MaskAbsent(v, m);
    MaskPresent(v, m);
    hide Part;
  }

  lemma {:induction false} DenoteBits(c: Literals, e: Expr, m: bv64)
    requires Good(c, e) && OneBit(m)
    ensures Has(Denote(c, e), m) <==> Sets(c, e, m)
  {
    hide Has, Union, Negated, OneBit;
    TermBits(c, e.term, m);
    if e.Or? {
      DenoteBits(c, e.rest, m);
      UnionBit(DenoteTerm(c, e.term), Denote(c, e.rest), m);
    }
  }

  lemma {:induction false} TermBits(c: Literals, t: Term, m: bv64)
    requires GoodTerm(c, t) && OneBit(m)
    ensures Has(DenoteTerm(c, t), m) <==> TermSets(c, t, m)
  {
    hide Has, Union, Negated, OneBit;
    match t {
      case Lit(neg, tok) => NegatedBit(neg, c(tok).value, m);
      case Group(neg, e) =>
        DenoteBits(c, e, m);
        NegatedBit(neg, Denote(c, e), m);
    }
  }

  /** The parsed value has exactly the bits the expression sets. */
  lemma ParsedBits(c: Literals, e: Expr, m: bv64)
    requires Good(c, e) && OneBit(m)
    ensures var r := Parse(c, Print(e)); r.Some? && (r.value & m != 0 <==> Sets(c, e, m))
  {
    ParsePrint(c, e);
    DenoteBits(c, e, m);
    hide Parse, Print, Denote, Sets, OneBit;
  }

  // ----- the parser as it runs -----

  method FindPipe(s: string) returns (k: nat)
    ensures k == Find(s, '|', 0)
  {
    k := 0;
    while k < |s| && s[k] != '|'
      invariant 0 <= k <= |s| && Find(s, '|', 0) == Find(s, '|', k)
    {
      k := k + 1;
    }
  }

  method SplitGroup(s: string) returns (r: Option<(string, string)>)
    requires s != "" && s[0] == '('
    ensures r == TokenizeGroup(s)
  {
    var found, count := 1, 1;
    while found < |s|
      invariant 1 <= found <= |s| && count > 0
      invariant CloseAt(s, 1, 1) == CloseAt(s, found, count)
    {
      if s[found] == '(' {
        count := count + 1;
      } else if s[found] == ')' {
        if count == 1 {
          return Some((s[1..found], s[found + 1..]));
        }
        count := count - 1;
      }
      found := found + 1;
    }
    r := None;
  }

  // The body of parse_constant's loop.
  method ParseOne(c: Literals, s: string) returns (r: Option<(bv64, string)>)
    requires s != ""
    ensures r == ParseTerm(c, s)
    decreases |s|, 0
  {
    hide Parse, TokenizeGroup, Union, Negated;
    var neg := s[0] == '~';
    var t := if neg then s[1..] else s;
    if t != "" && t[0] == '(' {
      var g := SplitGroup(t);
      if g.None? {
        return None;
      }
      GroupShorter(t);
      var (group, rest) := g.value;
      var v := ParseLoop(c, group);
      if v.None? {
        return None;
      }
      if rest != "" {
        if rest[0] != '|' || |rest| == 1 {
          return None;
        }
        return Some((Negated(neg, v.value), rest[1..]));
      }
      return Some((Negated(neg, v.value), ""));
    }
    var k := FindPipe(t);
    assert t[..|t|] == t;
    var v := Literal(c, t[..k]);
    if v.None? {
      return None;
    }
    return Some((Negated(neg, v.value), if k == |t| then "" else t[k + 1..]));
  }

  lemma GroupShorter(s: string)
    requires s != "" && s[0] == '('
    ensures var g := TokenizeGroup(s); g.Some? ==> |g.value.0| < |s|
  {
  }

  method ParseLoop(c: Literals, s: string) returns (r: Option<bv64>)
    ensures r == Parse(c, s)
    decreases |s|, 1
  {
    hide ParseTerm, Union;
    if s == "" {
      return None;
    }
    var rest, value := s, 0 as bv64;
    while rest != ""
      invariant |rest| <= |s| && ParseFrom(c, s, 0) == ParseFrom(c, rest, value)
      decreases |rest|
    {
      var v := ParseOne(c, rest);
      if v.None? {
        return None;
      }
      rest, value := v.value.1, Union(value, v.value.0);
    }
    r := Some(value);
  }

  /** parse_constant: on the text of an expression it computes what the expression stands for. */
  method ParseConstant(c: Literals, s: string) returns (r: Option<bv64>)
    ensures r == Parse(c, s)
    ensures forall e: Expr :: Good(c, e) && s == Print(e) ==> r == Some(Denote(c, e))
  {
    hide Print, Denote, Good, Parse;
    r := ParseLoop(c, s);
    forall e: Expr | Good(c, e) && s == Print(e) ensures Parse(c, s) == Some(Denote(c, e)) {
      ParsePrint(c, e);
    }
  }
}
