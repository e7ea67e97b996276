/** The boot monitor's tokenizer and its printer of function bodies: boot/boot.c onetoken, tokenize, sugar and the
    function definition branch of execute.  A C string is a sequence of characters without its final 0. */
module Monitor {
  datatype Option<T> = None | Some(value: T)

  /** Recognize special tokens; strchr finds the final 0 as well. */
  predicate Sugar(c: char) {
    c in {'=', '(', ')', '{', '}', ';', '\n', '\0'}
  }

  function First(s: string): char {
    if s == [] then '\0' else s[0]
  }

  /** Skip spaces and runs of newlines. */
  function Skip(s: string): (t: string)
    ensures |t| <= |s|
  {
    if First(s) == ' ' || (First(s) == '\n' && First(s[1..]) == '\n') then Skip(s[1..]) else s
  }

  /** The characters of a group from nesting depth `depth` on: up to the match, or to the first control character. */
  function GroupLen(s: string, depth: int): (n: nat)
    ensures n <= |s|
  {
    if First(s) < ' ' then 0
    else
      var inside := if s[0] == '(' then depth + 1 else depth;
      if s[0] != ')' then 1 + GroupLen(s[1..], inside)
      else if inside == 1 then 1
      else 1 + GroupLen(s[1..], inside - 1)
  }

  /** The group that starts so is closed. */
  predicate Closed(s: string, depth: int) {
    if First(s) < ' ' then false
    else
      var inside := if s[0] == '(' then depth + 1 else depth;
      if s[0] != ')' then Closed(s[1..], inside) else inside == 1 || Closed(s[1..], inside - 1)
  }

  /** The characters after the first of a word. */
  function WordLen(s: string): (n: nat)
    ensures n <= |s|
  {
    if First(s) > ' ' && !Sugar(First(s)) then 1 + WordLen(s[1..]) else 0
  }

  predicate Starts(s: string) {
    s != [] && (s[0] >= ' ' || s[0] == '\n')
  }

  function TokenLen(s: string): (n: nat)
    requires Starts(s)
    ensures 1 <= n <= |s|
  {
    if s[0] == '(' then GroupLen(s, 0) else if Sugar(s[0]) then 1 else 1 + WordLen(s[1..])
  }

  /** onetoken(): the next token and the rest of the line. */
  function OneToken(s: string): (r: Option<(string, string)>)
    ensures r.Some? ==> r.value.0 != [] && |r.value.1| < |s|
  {
    var t := Skip(s);
    if !Starts(t) then None
    else
      var n := TokenLen(t);
      Some((if t[0] == '\n' then ";" else t[..n], t[n..]))
  }

  function Tokens(s: string): seq<string>
    decreases |s|
  {
    var r := OneToken(s);
    if r == None then [] else [r.value.0] + Tokens(r.value.1)
  }

  // ---------------------------------------------------------------- the tokens of a line, character by character

  /** A character that is a token of its own, or ends one. */
  predicate Special(c: char) {
    c == '=' || c == '(' || c == ')' || c == '{' || c == '}' || c == ';' || c == '\n' || c == '\0'
  }

  /** Opening parentheses less closing ones. */
  function Open(s: string): int {
    if s == [] then 0 else Open(s[..|s| - 1]) + (if s[|s| - 1] == '(' then 1 else if s[|s| - 1] == ')' then -1 else 0)
  }

  lemma OpenMore(s: string, k: nat)
    requires k < |s|
    ensures Open(s[..k + 1]) == Open(s[..k]) + (if s[k] == '(' then 1 else if s[k] == ')' then -1 else 0)
  {
    assert s[..k + 1][..k] == s[..k];
  }

  /** The first n characters make a group: its parentheses match, or a control character or the end cuts it short. */
  ghost predicate GroupOf(s: string, n: nat) {
    && 0 < n <= |s|
    && (forall i :: 0 <= i < n ==> s[i] >= ' ')
    && (forall m :: 0 < m < n ==> Open(s[..m]) > 0)
    && (Open(s[..n]) == 0 || n == |s| || s[n] < ' ')
  }

  lemma OpenNone(s: string)
    ensures Open(s[..0]) == 0
  {
  }

  lemma GroupStep(s: string, k: nat, depth: int)
    requires k <= |s|
    ensures GroupLen(s[k..], depth)
            == if k == |s| || s[k] < ' ' then 0
               else if s[k] == '(' then 1 + GroupLen(s[k + 1..], depth + 1)
               else if s[k] != ')' then 1 + GroupLen(s[k + 1..], depth)
               else if depth == 1 then 1
               else 1 + GroupLen(s[k + 1..], depth - 1)
  {
    if k < |s| { assert s[k..][1..] == s[k + 1..]; }
  }

  lemma {:induction false} GroupFrom(s: string, k: nat)
    requires s != [] && s[0] == '(' && k <= |s| && (forall i :: 0 <= i < k ==> s[i] >= ' ')
    requires forall m :: 0 < m <= k ==> Open(s[..m]) > 0
    ensures Open(s[..0]) == 0 && GroupOf(s, k + GroupLen(s[k..], Open(s[..k])))
    decreases |s| - k
  {
    hide Open, GroupLen;
    GroupStep(s, k, Open(s[..k]));
    OpenNone(s);
    if k < |s| && s[k] >= ' ' {
      OpenMore(s, k);
      if !(s[k] == ')' && Open(s[..k]) == 1) { GroupFrom(s, k + 1); }
    }
  }

  /** A character that goes on with a word. */
  predicate Inner(c: char) {
    c > ' ' && !Special(c)
  }

  lemma {:induction false} WordExactly(s: string)
    ensures var n := WordLen(s); (forall i :: 0 <= i < n ==> Inner(s[i])) && (n == |s| || !Inner(s[n]))
  {
    if s != [] && Inner(s[0]) {
      WordExactly(s[1..]);
      assert forall i :: 1 <= i < |s| ==> s[i] == s[1..][i - 1];
    }
  }

  /** A blank, or a newline that another one follows. */
  predicate Blank(s: string, i: nat)
    requires i < |s|
  {
    s[i] == ' ' || (s[i] == '\n' && i + 1 < |s| && s[i + 1] == '\n')
  }

  lemma {:induction false} SkipExactly(s: string) returns (k: nat)
    ensures k <= |s| && Skip(s) == s[k..] && (forall i :: 0 <= i < k ==> Blank(s, i)) && (k < |s| ==> !Blank(s, k))
  {
    k := 0;
    if s != [] && Blank(s, 0) {
      var j := SkipExactly(s[1..]);
      forall i | 1 <= i < |s|
        ensures Blank(s, i) <==> Blank(s[1..], i - 1)
      {
      }
      k := j + 1;
      assert s[1..][j..] == s[k..];
    } else {
      assert s[0..] == s;
    }
  }

  /** The token tok is at k: behind nothing but blanks there are n characters that are one special character, or a group, or
      a word that goes as far as it can; a newline becomes a semicolon. */
  ghost predicate TokenAt(s: string, tok: string, k: nat, n: nat) {
    && 0 < n && k + n <= |s| && (forall i :: 0 <= i < k ==> Blank(s, i)) && !Blank(s, k)
    && (s[k] >= ' ' || s[k] == '\n')
    && tok == (if s[k] == '\n' then ";" else s[k..k + n])
    && if s[k] == '(' then GroupOf(s[k..], n)
       else if Special(s[k]) then n == 1
       else (forall i :: 0 < i < n ==> Inner(s[k..][i])) && (k + n == |s| || !Inner(s[k..][n]))
  }

  /** Nothing but blanks, up to the end or a control character. */
  ghost predicate NoToken(s: string, k: nat) {
    k <= |s| && (forall i :: 0 <= i < k ==> Blank(s, i)) && (k < |s| ==> s[k] < ' ' && !(s[k] == '\n' && !Blank(s, k)))
  }

  /** Main result on one token: which characters of the line it is. */
  lemma TokenExactly(s: string)
    ensures match OneToken(s)
            case None => exists k :: NoToken(s, k)
            case Some(r) => exists k, n :: TokenAt(s, r.0, k, n) && r.1 == s[k + n..]
  {
    hide GroupLen, WordLen, Skip;
    var k := SkipExactly(s);
    var t := s[k..];
    if Starts(t) {
      var n := TokenLen(t);
      assert k + n <= |s| && t[..n] == s[k..k + n] && t[n..] == s[k + n..];
      if t[0] == '(' {
        assert t[0..] == t && t[..0] == [];
        GroupFrom(t, 0);
      } else if !Special(t[0]) {
        WordExactly(t[1..]);
        assert forall i :: 1 <= i < |t| ==> t[i] == t[1..][i - 1];
      }
      assert TokenAt(s, if s[k] == '\n' then ";" else s[k..k + n], k, n);
    } else {
      assert NoToken(s, k);
    }
  }

  // ---------------------------------------------------------------- what a token is

  predicate IsWord(t: string) {
    t != [] && forall i :: 0 <= i < |t| ==> t[i] > ' ' && !Sugar(t[i])
  }

  predicate IsGroup(t: string) {
    t != [] && t[0] == '(' && GroupLen(t, 0) == |t|
  }

  predicate IsToken(t: string) {
    t in {"=", ")", "{", "}", ";"} || IsWord(t) || IsGroup(t)
  }

  /** A group closes when its parentheses match; any other token closes by itself. */
  predicate Complete(t: string) {
    IsGroup(t) ==> Closed(t, 0)
  }

  lemma {:induction false} GroupAlone(s: string, depth: int)
    ensures GroupLen(s[..GroupLen(s, depth)], depth) == GroupLen(s, depth)
  {
    var n := GroupLen(s, depth);
    if First(s) >= ' ' {
      var inside := if s[0] == '(' then depth + 1 else depth;
      if s[0] != ')' {
        GroupAlone(s[1..], inside);
        assert s[..n][1..] == s[1..][..n - 1];
      } else if inside != 1 {
        GroupAlone(s[1..], inside - 1);
        assert s[..n][1..] == s[1..][..n - 1];
      }
    }
  }

  lemma {:induction false} WordAll(s: string)
    ensures forall i :: 0 <= i < WordLen(s) ==> s[i] > ' ' && !Sugar(s[i])
  {
    if First(s) > ' ' && !Sugar(First(s)) {
      WordAll(s[1..]);
      assert forall i :: 1 <= i < WordLen(s) ==> s[i] == s[1..][i - 1];
    }
  }

  lemma {:induction false} SkipStops(s: string)
    ensures First(Skip(s)) != ' '
  {
    if First(s) == ' ' || (First(s) == '\n' && First(s[1..]) == '\n') { SkipStops(s[1..]); }
  }

  /** Whatever the line, the tokenizer makes nothing but tokens. */
  lemma {:induction false} OnlyTokens(s: string)
    ensures forall i :: 0 <= i < |Tokens(s)| ==> IsToken(Tokens(s)[i])
    decreases |s|
  {
    var r := OneToken(s);
    if r.Some? {
      OnlyTokens(r.value.1);
      SkipStops(s);
      var t := Skip(s);
      var n := TokenLen(t);
      if t[0] == '(' {
        GroupAlone(t, 0);
        assert IsGroup(t[..n]);
      } else if t[0] != '\n' && Sugar(t[0]) {
        assert t[..1] == [t[0]];
      } else if t[0] != '\n' {
        WordAll(t[1..]);
        assert forall i :: 1 <= i < n ==> t[i] == t[1..][i - 1];
        assert IsWord(t[..n]);
      }
    }
  }

  // ---------------------------------------------------------------- printing a body

  predicate Spaced(t: string, u: string) {
    !Sugar(First(t)) && !Sugar(First(u))
  }

  /** The body of a function: its tokens, with a space only between two that are no sugar. */
  function Join(ts: seq<string>): string {
    if ts == [] then []
    else if |ts| == 1 then ts[0]
    else ts[0] + (if Spaced(ts[0], ts[1]) then " " else "") + Join(ts[1..])
  }

  // ---------------------------------------------------------------- reading it back

  lemma {:induction false} WordThen(t: string, rest: string)
    requires forall i :: 0 <= i < |t| ==> t[i] > ' ' && !Sugar(t[i])
    requires First(rest) <= ' ' || Sugar(First(rest))
    ensures WordLen(t + rest) == |t|
  {
    if t == [] {
      assert t + rest == rest;
    } else {
      assert (t + rest)[1..] == t[1..] + rest;
      WordThen(t[1..], rest);
    }
  }

  /** A closed group ends where it ended, whatever follows; an open one goes on. */
  lemma {:induction false} GroupThen(t: string, rest: string, depth: int)
    requires GroupLen(t, depth) == |t|
    ensures Closed(t, depth) ==> GroupLen(t + rest, depth) == |t|
    ensures !Closed(t, depth) && First(rest) >= ' ' ==> GroupLen(t + rest, depth) > |t|
  {
    if t == [] {
      assert t + rest == rest;
    } else {
      assert (t + rest)[1..] == t[1..] + rest;
      var inside := if t[0] == '(' then depth + 1 else depth;
      if t[0] != ')' {
        GroupThen(t[1..], rest, inside);
      } else if inside != 1 {
        GroupThen(t[1..], rest, inside - 1);
      }
    }
  }

  lemma TokenBegins(t: string, rest: string)
    requires IsToken(t)
    ensures t[0] > ' ' && Starts(t + rest) && Skip(t + rest) == t + rest
  {
    assert IsGroup(t) || IsWord(t) ==> t[0] > ' ';
  }

  /** The token at the front of a line comes off it whole. */
  lemma TokenComesOff(t: string, rest: string)
    requires IsToken(t) && Complete(t) && (IsWord(t) ==> First(rest) <= ' ' || Sugar(First(rest)))
    ensures OneToken(t + rest) == Some((t, rest))
  {
    TokenBegins(t, rest);
    var s := t + rest;
    if IsGroup(t) {
      GroupThen(t, rest, 0);
    } else if IsWord(t) {
      assert s[1..] == t[1..] + rest;
      WordThen(t[1..], rest);
    }
    assert TokenLen(s) == |t|;
    assert s[..|t|] == t && s[|t|..] == rest;
  }

  lemma SpaceSkipped(s: string)
    ensures OneToken(" " + s) == OneToken(s) && Tokens(" " + s) == Tokens(s)
  {
    assert (" " + s)[1..] == s;
  }

  lemma {:induction false} JoinBegins(ts: seq<string>)
    requires ts != [] && forall i :: 0 <= i < |ts| ==> IsToken(ts[i])
    ensures Join(ts) != [] && ts[0] != [] && Join(ts)[0] == ts[0][0]
  {
    TokenBegins(ts[0], []);
  }

  predicate AllComplete(ts: seq<string>) {
    forall i :: 0 <= i < |ts| - 1 ==> Complete(ts[i])
  }

  /** Reading a body back gives its tokens, if every group but perhaps the last token is closed. */
  lemma {:induction false} ReadsBack(ts: seq<string>)
    requires forall i :: 0 <= i < |ts| ==> IsToken(ts[i])
    requires AllComplete(ts)
    ensures Tokens(Join(ts)) == ts
  {
    hide GroupLen, Closed, WordLen, IsToken, Skip, OneToken, IsGroup;
    if |ts| == 1 {
      LastToken(ts[0]);
    } else if |ts| > 1 {
      ReadsBack(ts[1..]);
      var t, u, more := ts[0], ts[1], Join(ts[1..]);
      JoinBegins(ts[1..]);
      assert Complete(t);
      if Spaced(t, u) {
        assert Join(ts) == t + (" " + more);
        TokenComesOff(t, " " + more);
        SpaceSkipped(more);
      } else {
        assert Join(ts) == t + more;
        TokenComesOff(t, more);
      }
    }
  }

  lemma LastToken(t: string)
    requires IsToken(t)
    ensures Tokens(t) == [t]
  {
    assert t + [] == t;
    TokenBegins(t, []);
    if IsGroup(t) {
      assert TokenLen(t) == |t|;
      assert t[..|t|] == t && t[|t|..] == [];
      assert OneToken(t) == Some((t, []));
    } else {
      TokenComesOff(t, []);
    }
  }

  /** An open group swallows what follows it. */
  lemma {:induction false} OpenGroupSwallows(ts: seq<string>, k: nat)
    requires forall i :: 0 <= i < |ts| ==> IsToken(ts[i])
    requires k < |ts| - 1 && !Complete(ts[k]) && forall i :: 0 <= i < k ==> Complete(ts[i])
    ensures Tokens(Join(ts)) != ts
  {
    hide WordLen, IsToken, Skip;
    var t, u, more := ts[0], ts[1], Join(ts[1..]);
    JoinBegins(ts[1..]);
    TokenBegins(u, []);
    if k == 0 {
      assert !Spaced(t, u);
      assert Join(ts) == t + more;
      TokenBegins(t, more);
      GroupThen(t, more, 0);
      assert |Tokens(Join(ts))[0]| > |t|;
    } else {
      OpenGroupSwallows(ts[1..], k - 1);
      if Spaced(t, u) {
        assert Join(ts) == t + (" " + more);
        TokenComesOff(t, " " + more);
        SpaceSkipped(more);
      } else {
        assert Join(ts) == t + more;
        TokenComesOff(t, more);
      }
      assert Tokens(Join(ts))[1..] == Tokens(more);
    }
  }

  /** Main result: the body of a function, joined and read back, gives the same tokens exactly if in every group
      of parentheses but one at the very end the parentheses match. */
  lemma BodyRoundTrip(ts: seq<string>)
    requires forall i :: 0 <= i < |ts| ==> IsToken(ts[i])
    ensures Tokens(Join(ts)) == ts <==> AllComplete(ts)
  {
    if AllComplete(ts) {
      ReadsBack(ts);
    } else {
      var k :| 0 <= k < |ts| - 1 && !Complete(ts[k]);
      var j := FirstOpen(ts, k);
      OpenGroupSwallows(ts, j);
    }
  }

  lemma {:induction false} FirstOpen(ts: seq<string>, k: nat) returns (j: nat)
    requires k < |ts| - 1 && !Complete(ts[k])
    ensures j <= k && !Complete(ts[j]) && forall i :: 0 <= i < j ==> Complete(ts[i])
  {
    if i :| 0 <= i < k && !Complete(ts[i]) { j := FirstOpen(ts, i); } else { j := k; }
  }

  // ---------------------------------------------------------------- the program

  /** The token at pos is tok, and the line goes on at end. */
  predicate Reads(line: string, pos: nat, tok: Option<string>, end: nat) {
    pos <= end <= |line|
    && match OneToken(line[pos..])
       case None => tok == None
       case Some(r) => tok == Some(r.0) && line[end..] == r.1 && end > pos
  }

  lemma ReadsOne(line: string, pos: nat, tok: Option<string>, end: nat)
    requires Reads(line, pos, tok, end)
    ensures tok.Some? ==> pos < end <= |line| && Tokens(line[pos..]) == [tok.value] + Tokens(line[end..])
    ensures tok.None? ==> Tokens(line[pos..]) == []
  {
  }

  /** onetoken(), moving along the line */
  method NextToken(line: string, pos: nat) returns (tok: Option<string>, end: nat)
    requires pos <= |line|
    ensures pos <= end <= |line|
    ensures Reads(line, pos, tok, end)
  {
    hide GroupLen, WordLen;
    end := pos;
    while end < |line| && (line[end] == ' ' || (line[end] == '\n' && end + 1 < |line| && line[end + 1] == '\n'))
      invariant pos <= end <= |line| && Skip(line[end..]) == Skip(line[pos..])
    {
      assert line[end..][1..] == line[end + 1..];
      end := end + 1;
    }
    ghost var rest := line[end..];
    assert end < |line| ==> rest[1..] == line[end + 1..];
    assert Skip(rest) == rest;
    if end == |line| || (line[end] < ' ' && line[end] != '\n') { return None, end; }
    var start := end;
    if line[end] == '(' {
      end := SkipGroup(line, end);
    } else if Sugar(line[end]) {
      end := end + 1;
    } else {
      end := SkipWord(line, end + 1);
    }
    assert line[start..end] == rest[..end - start] && line[end..] == rest[end - start..];
    tok := Some(if line[start] == '\n' then ";" else line[start..end]);
  }

  method SkipGroup(line: string, start: nat) returns (end: nat)
    requires start <= |line|
    ensures start <= end <= |line| && end - start == GroupLen(line[start..], 0)
  {
    var depth := 0;
    end := start;
    while end < |line| && line[end] >= ' '
      invariant start <= end <= |line|
      invariant GroupLen(line[start..], 0) == end - start + GroupLen(line[end..], depth)
    {
      assert line[end..][1..] == line[end + 1..];
      if line[end] == '(' { depth := depth + 1; }
      end := end + 1;
      if line[end - 1] == ')' {
        depth := depth - 1;
        if depth == 0 { return; }
      }
    }
  }

  method SkipWord(line: string, start: nat) returns (end: nat)
    requires start <= |line|
    ensures start <= end <= |line| && end - start == WordLen(line[start..])
  {
    end := start;
    while end < |line| && line[end] > ' ' && !Sugar(line[end])
      invariant start <= end <= |line|
      invariant WordLen(line[start..]) == end - start + WordLen(line[end..])
    {
      assert line[end..][1..] == line[end + 1..];
      end := end + 1;
    }
  }

  /** The command chain. */
  class Commands {
    var chain: seq<string>

    constructor ()
      ensures chain == []
    {
      chain := [];
    }

    /** tokenize(): the tokens of the line go in at position at, in order, ahead of what was there; the result is
        where another line could be added. */
    method Tokenize(at: nat, line: string) returns (next: nat)
      requires at <= |chain|
      modifies this
      ensures chain == old(chain)[..at] + Tokens(line) + old(chain)[at..]
      ensures next == at + |Tokens(line)|
    {
      hide Reads, Tokens;
      next := at;
      var pos := 0;
      ghost var done: seq<string> := [];
      var tok, end := NextToken(line, pos);
      assert line[0..] == line && done + Tokens(line) == Tokens(line);
      assert chain == old(chain)[..at] + done + old(chain)[at..];
      while tok.Some?
        invariant pos <= |line| && next == at + |done| <= |chain|
        invariant chain == old(chain)[..at] + done + old(chain)[at..]
        invariant Tokens(line) == done + Tokens(line[pos..])
        invariant Reads(line, pos, tok, end)
        decreases |line| - pos, tok.Some?
      {
        ReadsOne(line, pos, tok, end);
        assert chain[..next] == old(chain)[..at] + done && chain[next..] == old(chain)[at..];
        chain := chain[..next] + [tok.value] + chain[next..];
        assert done + ([tok.value] + Tokens(line[end..])) == done + [tok.value] + Tokens(line[end..]);
        done := done + [tok.value];
        next := next + 1;
        pos := end;
        tok, end := NextToken(line, pos);
      }
      ReadsOne(line, pos, tok, end);
    }
  }

  /** How many tokens of a definition belong to its body: up to a ';' outside braces or the closing brace.
      depth is what is left open, and found whether the end was found at all. */
  function BodyEnd(ts: seq<string>, depth: int): (r: (nat, int, bool))
    ensures r.0 <= |ts|
  {
    if ts == [] then (0, depth, false)
    else if First(ts[0]) == ';' && depth == 0 then (0, depth, true)
    else
      var inside := if First(ts[0]) == '{' then depth + 1 else if First(ts[0]) == '}' then depth - 1 else depth;
      if First(ts[0]) == '}' && inside == 0 then (1, inside, true)
      else
        var r := BodyEnd(ts[1..], inside);
        (r.0 + 1, r.1, r.2)
  }

  /** Opening braces less closing ones among the first n tokens. */
  function Nest(ts: seq<string>, n: nat): int
    requires n <= |ts|
  {
    if n == 0 then 0 else Nest(ts, n - 1) + (if First(ts[n - 1]) == '{' then 1 else if First(ts[n - 1]) == '}' then -1 else 0)
  }

  /** The body can end before token n: at a semicolon outside braces, or behind the last closing brace. */
  predicate Ends(ts: seq<string>, n: nat)
    requires n <= |ts|
  {
    Nest(ts, n) == 0 && ((n < |ts| && First(ts[n]) == ';') || (n > 0 && First(ts[n - 1]) == '}'))
  }

  lemma BodyStep(ts: seq<string>, k: nat, depth: int)
    requires k <= |ts|
    ensures var r := BodyEnd(ts[k..], depth);
            if k == |ts| then r == (0, depth, false)
            else
              var inside := if First(ts[k]) == '{' then depth + 1 else if First(ts[k]) == '}' then depth - 1 else depth;
              if First(ts[k]) == ';' && depth == 0 then r == (0, depth, true)
              else if First(ts[k]) == '}' && inside == 0 then r == (1, inside, true)
              else var next := BodyEnd(ts[k + 1..], inside); r == (next.0 + 1, next.1, next.2)
  {
    if k < |ts| { assert ts[k..][1..] == ts[k + 1..]; }
  }

  /** A body is as short as it can be: it ends where one can end first, or with the tokens. */
  lemma {:induction false} BodyExactly(ts: seq<string>, k: nat)
    requires k <= |ts| && (k > 0 ==> !(Nest(ts, k) == 0 && First(ts[k - 1]) == '}')) && forall m :: 0 <= m < k ==> !Ends(ts, m)
    ensures var r := BodyEnd(ts[k..], Nest(ts, k));
            && r.1 == Nest(ts, k + r.0) && (r.2 <==> Ends(ts, k + r.0)) && (!r.2 ==> k + r.0 == |ts|)
            && forall m :: 0 <= m < k + r.0 ==> !Ends(ts, m)
    decreases |ts| - k
  {
    hide BodyEnd, First;
    BodyStep(ts, k, Nest(ts, k));
    if k < |ts| && !Ends(ts, k) {
      if !(First(ts[k]) == '}' && Nest(ts, k + 1) == 0) { BodyExactly(ts, k + 1); }
    }
  }

  /** What execute() needs room for: every token and one more character for each, and the final 0. */
  function Room(ts: seq<string>): nat {
    if ts == [] then 1 else |ts[0]| + 1 + Room(ts[1..])
  }

  lemma {:induction false} JoinFits(ts: seq<string>)
    ensures |Join(ts)| + 1 <= Room(ts)
  {
    if ts != [] {
      JoinFits(ts[1..]);
    }
  }

  lemma {:induction false} RoomAppend(ts: seq<string>, t: string)
    ensures Room(ts + [t]) == Room(ts) + |t| + 1
  {
    if ts == [] {
      assert ts + [t] == [t] && [t][1..] == [];
    } else {
      assert (ts + [t])[1..] == ts[1..] + [t];
      RoomAppend(ts[1..], t);
    }
  }

  lemma {:induction false} JoinAppend(ts: seq<string>, t: string)
    requires ts != []
    ensures Join(ts + [t]) == Join(ts) + (if Spaced(ts[|ts| - 1], t) then " " else "") + t
  {
    hide Spaced;
    var all := ts + [t];
    if |ts| == 1 {
      assert all[1..] == [t] && [t][1..] == [];
      assert Join([t]) == t && Join(ts) == ts[0];
    } else {
      assert all[1..] == ts[1..] + [t];
      JoinAppend(ts[1..], t);
      var gap, end := if Spaced(ts[0], ts[1]) then " " else "", if Spaced(ts[|ts| - 1], t) then " " else "";
      assert Join(ts) == ts[0] + gap + Join(ts[1..]);
      assert ts[0] + gap + (Join(ts[1..]) + end + t) == ts[0] + gap + Join(ts[1..]) + end + t;
    }
  }

  /** The two loops of the definition branch.  The body fits into the room that has been computed for it.  If the
      tokens end before a ';' or '}' has ended the body, the last token has no successor to look at. */
  method JoinBody(ts: seq<string>) returns (body: string, sep: nat, len: nat, depth: int)
    requires forall i :: 0 <= i < |ts| ==> IsToken(ts[i])
    ensures (sep, depth) == (BodyEnd(ts, 0).0, BodyEnd(ts, 0).1) && sep <= |ts|
    ensures body == Join(ts[..sep]) && |body| + 1 <= len
  {
    sep, depth, len := MeasureBody(ts);
    body := [];
    var fun := 0;
    while fun != sep
      invariant 0 <= fun <= sep
      invariant body == Join(ts[..fun]) + (if 0 < fun < |ts| && Spaced(ts[fun - 1], ts[fun]) then " " else "")
      decreases sep - fun
    {
      ghost var before := ts[..fun];
      assert ts[..fun + 1] == before + [ts[fun]];
      if fun > 0 { JoinAppend(before, ts[fun]); }
      body := body + ts[fun];
      if fun + 1 < |ts| && !Sugar(First(ts[fun])) && !Sugar(First(ts[fun + 1])) { body := body + " "; }
      fun := fun + 1;
    }
    BodyEndsInSugar(ts, 0);
    JoinFits(ts[..sep]);
  }

  /** Behind the body comes ';', or it ends with '}', or it is all there is: no space is added to its end. */
  lemma {:induction false} BodyEndsInSugar(ts: seq<string>, depth: int)
    ensures var n := BodyEnd(ts, depth).0; 0 < n < |ts| ==> !Spaced(ts[n - 1], ts[n])
  {
    if ts != [] && !(First(ts[0]) == ';' && depth == 0) {
      var inside := if First(ts[0]) == '{' then depth + 1 else if First(ts[0]) == '}' then depth - 1 else depth;
      if !(First(ts[0]) == '}' && inside == 0) {
        BodyEndsInSugar(ts[1..], inside);
        if BodyEnd(ts[1..], inside).0 == 0 && ts[1..] != [] { assert First(ts[1..][0]) == ';'; }
      }
    }
  }

  method MeasureBody(ts: seq<string>) returns (sep: nat, depth: int, len: nat)
    ensures (sep, depth) == (BodyEnd(ts, 0).0, BodyEnd(ts, 0).1) && sep <= |ts|
    ensures len == Room(ts[..sep])
  {
    sep, depth, len := 0, 0, 1;
    while sep < |ts|
      invariant 0 <= sep <= |ts| && len == Room(ts[..sep])
      invariant BodyEnd(ts, 0) == (sep + BodyEnd(ts[sep..], depth).0, BodyEnd(ts[sep..], depth).1, BodyEnd(ts[sep..], depth).2)
    {
      var c := First(ts[sep]);
      assert ts[sep..][1..] == ts[sep + 1..];
      if c == ';' && depth == 0 { return; }
      RoomAppend(ts[..sep], ts[sep]);
      assert ts[..sep + 1] == ts[..sep] + [ts[sep]];
      len := len + |ts[sep]| + 1;
      sep := sep + 1;
      if c == '{' { depth := depth + 1; }
      if c == '}' {
        depth := depth - 1;
        if depth == 0 { return; }
      }
    }
  }
}
