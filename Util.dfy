/** The in-place argument tokenizer `iterate_args` of util.c. A pointer
    into the argument buffer is an index into an `array<char>`; the caller's
    `arg_list_end` is the index `end`, where the buffer holds a NUL. */
module Util {
  import opened Options
  import opened CText

  /** The buffer holds the NUL that ends the argument list at `end`. */
  predicate Framed(s: seq<char>, end: nat) {
    end < |s| && s[end] == NUL
  }

  /** One call of `iterate_args`: the pointer it returns (None for NULL),
      the new values of `*pos` and `*next_pos`, and the buffer afterwards. */
  datatype Step = Step(token: Option<nat>, pos: nat, nextPos: nat, buf: seq<char>)

  /** First index at or after `i` that is not white space
      (`SkipSpacesSpec`). */
  function SkipSpaces(s: seq<char>, i: nat, end: nat): (j: nat)
    requires Framed(s, end) && i <= end
    ensures i <= j <= end
    decreases end - i
  {
    if IsSpace(s[i]) then SkipSpaces(s, i + 1, end) else i
  }

  lemma {:induction false} SkipSpacesSpec(s: seq<char>, i: nat, end: nat)
    requires Framed(s, end) && i <= end
    ensures var j := SkipSpaces(s, i, end);
      !IsSpace(s[j]) && forall k | i <= k < j :: IsSpace(s[k])
    decreases end - i
  {
    if IsSpace(s[i]) {
      SkipSpacesSpec(s, i + 1, end);
    }
  }

  /** First index at or after `i` that holds white space or a NUL
      (`TokenEndSpec`). */
  function TokenEnd(s: seq<char>, i: nat, end: nat): (j: nat)
    requires Framed(s, end) && i <= end
    ensures i <= j <= end
    decreases end - i
  {
    if s[i] == NUL || IsSpace(s[i]) then i else TokenEnd(s, i + 1, end)
  }

  lemma {:induction false} TokenEndSpec(s: seq<char>, i: nat, end: nat)
    requires Framed(s, end) && i <= end
    ensures var j := TokenEnd(s, i, end);
      (s[j] == NUL || IsSpace(s[j])) && forall k | i <= k < j :: s[k] != NUL && !IsSpace(s[k])
    decreases end - i
  {
    if !(s[i] == NUL || IsSpace(s[i])) {
      TokenEndSpec(s, i + 1, end);
    }
  }

  /** What `iterate_args(&pos, &next_pos, end)` does; `IterateSpec` states
      it in words. */
  function Iterate(s: seq<char>, pos: nat, nextPos: nat, end: nat): (r: Step)
    requires Framed(s, end)
    ensures Framed(r.buf, end)
    ensures r.token.Some? ==> r.token.value <= end && pos < r.nextPos <= end + 1
  {
    if pos >= end then Step(None, pos, nextPos, s)
    else
      var start := SkipSpaces(s, pos, end);
      var stop := TokenEnd(s, start, end);
      Step(Some(start), start, stop + 1, if IsSpace(s[stop]) then s[stop := NUL] else s)
  }

  /** At or past `end`, `iterate_args` returns NULL and changes nothing.
      Otherwise the token starts at the first byte from `pos` on that is not
      white space, `*pos` moves there and is returned; the token runs up to
      the first white space or NUL, that terminating byte and no other
      becomes a NUL, and `*next_pos` is one past it. */
  lemma {:induction false} IterateSpec(s: seq<char>, pos: nat, nextPos: nat, end: nat)
    requires Framed(s, end)
    ensures var r := Iterate(s, pos, nextPos, end);
      && |r.buf| == |s|
      && (r.token.None? <==> pos >= end)
      && (pos >= end ==> r == Step(None, pos, nextPos, s))
      && (pos < end ==>
        && r.token == Some(r.pos)
        && pos <= r.pos <= end && !IsSpace(s[r.pos])
        && (forall k | pos <= k < r.pos :: IsSpace(s[k]))
        && r.pos < r.nextPos <= end + 1
        && (s[r.nextPos - 1] == NUL || IsSpace(s[r.nextPos - 1]))
        && (forall k | r.pos <= k < r.nextPos - 1 :: s[k] != NUL && !IsSpace(s[k]))
        && r.buf == s[r.nextPos - 1 := NUL])
  {
    if pos < end {
      SkipSpacesSpec(s, pos, end);
      TokenEndSpec(s, SkipSpaces(s, pos, end), end);
    }
  }

  /** The idiom every command uses, `arg = arglist; iterate_args(&arg,
      &arglist, arglist_end)`: both pointers start at the current `arglist`,
      and the step's `nextPos` is the new `arglist`. */
  function NextArg(s: seq<char>, arglist: nat, end: nat): (r: Step)
    requires Framed(s, end)
    ensures Framed(r.buf, end)
    ensures r.token.Some? ==> r.token.value <= end
  {
    Iterate(s, arglist, arglist, end)
  }

  /** The argument a step returned, read as a C string from the updated
      buffer; None when `iterate_args` returned NULL. */
  function ArgText(r: Step, end: nat): (t: Option<string>)
    requires Framed(r.buf, end) && (r.token.Some? ==> r.token.value <= end)
  {
    if r.token.None? then None else Some(CStr(r.buf, r.token.value, end))
  }

  /** The text of a returned token is exactly the bytes between its start
      and the byte that ended it: no white space and no NUL. */
  lemma {:induction false} TokenText(s: seq<char>, pos: nat, nextPos: nat, end: nat)
    requires Framed(s, end) && pos < end
    ensures var r := Iterate(s, pos, nextPos, end);
      && ArgText(r, end) == Some(s[r.pos..r.nextPos - 1])
      && forall i | 0 <= i < r.nextPos - 1 - r.pos :: !IsSpace(ArgText(r, end).value[i])
  {
    IterateSpec(s, pos, nextPos, end);
    var r := Iterate(s, pos, nextPos, end);
    var stop := r.nextPos - 1;
    assert r.buf[stop] == NUL;
    assert forall k | r.pos <= k < stop :: r.buf[k] == s[k];
    NulFromSpec(r.buf, r.pos, end);
    var q := NulFrom(r.buf, r.pos, end);
    assert q == stop;
    assert r.buf[r.pos..stop] == s[r.pos..stop];
  }

  /** If only white space is left before `end`, `iterate_args` does not
      return NULL: it returns an empty token that points at the NUL at
      `end`, and the next call returns NULL. */
  lemma {:induction false} WhitespaceTail(s: seq<char>, pos: nat, end: nat)
    requires Framed(s, end) && pos < end
    requires forall k | pos <= k < end :: IsSpace(s[k])
    ensures var r := NextArg(s, pos, end);
      && r.token == Some(end) && ArgText(r, end) == Some("")
      && r.buf == s && r.nextPos == end + 1
      && NextArg(r.buf, r.nextPos, end).token.None?
  {
    IterateSpec(s, pos, pos, end);
    var r := NextArg(s, pos, end);
    assert r.pos == end;
    IterateSpec(r.buf, r.nextPos, r.nextPos, end);
  }

  /** `iterate_args` in place on a buffer, as util.c writes it: two scanning
      loops, then a NUL written over a terminating white-space byte. */
  method IterateArgs(a: array<char>, pos: nat, nextPos: nat, end: nat)
    returns (token: Option<nat>, newPos: nat, newNextPos: nat)
    requires Framed(a[..], end)
    modifies a
    ensures Step(token, newPos, newNextPos, a[..]) == Iterate(old(a[..]), pos, nextPos, end)
  {
    if pos >= end {
      return None, pos, nextPos;
    }
    ghost var s := a[..];
    IterateSpec(s, pos, nextPos, end);
    var iter := pos;
    while IsSpace(a[iter])
      invariant pos <= iter <= end
      invariant forall k | pos <= k < iter :: IsSpace(a[k])
      decreases end - iter
    {
      iter := iter + 1;
    }
    newPos := iter;
    assert newPos == SkipSpaces(s, pos, end);
    while !(a[iter] == NUL || IsSpace(a[iter]))
      invariant newPos <= iter <= end
      invariant forall k | newPos <= k < iter :: a[k] != NUL && !IsSpace(a[k])
      decreases end - iter
    {
      iter := iter + 1;
    }
    assert iter == TokenEnd(s, newPos, end);
    if IsSpace(a[iter]) {
      a[iter] := NUL;
    }
    newNextPos := iter + 1;
    token := Some(newPos);
  }

  /** The argument loop that util.h documents: start at `pos`, take tokens
      until `iterate_args` returns NULL, resuming each time at the previous
      call's `next_pos`. The result lists the text of every token. */
  function Tokens(s: seq<char>, pos: nat, end: nat): seq<string>
    requires Framed(s, end)
    decreases if pos <= end then end + 1 - pos else 0
  {
    var r := NextArg(s, pos, end);
    if r.token.None? then [] else [ArgText(r, end).value] + Tokens(r.buf, r.nextPos, end)
  }

  /** A token as a caller can write it: non-empty, no white space, no NUL. */
  predicate IsWord(w: string) {
    |w| > 0 && forall i | 0 <= i < |w| :: w[i] != NUL && !IsSpace(w[i])
  }

  /** Words separated by single spaces. */
  function Join(ws: seq<string>): string {
    if |ws| == 0 then "" else if |ws| == 1 then ws[0] else ws[0] + " " + Join(ws[1..])
  }

  predicate AllSpace(t: string) {
    forall i | 0 <= i < |t| :: IsSpace(t[i])
  }

  /** A word at `pos` that ends at white space or a NUL is the next token:
      its terminator becomes a NUL and the next call resumes right after it. */
  lemma {:induction false} WordAt(s: seq<char>, pos: nat, w: string, end: nat)
    requires Framed(s, end) && IsWord(w) && pos + |w| <= end
    requires s[pos..pos + |w|] == w
    requires s[pos + |w|] == NUL || IsSpace(s[pos + |w|])
    ensures var r := NextArg(s, pos, end);
      && r == Step(Some(pos), pos, pos + |w| + 1, s[pos + |w| := NUL])
      && ArgText(r, end) == Some(w)
  {
    assert forall k | 0 <= k < |w| :: s[pos + k] == w[k];
    assert s[pos] == w[0];
    IterateSpec(s, pos, pos, end);
    var r := NextArg(s, pos, end);
    assert r.pos == pos;
    assert r.nextPos - 1 == pos + |w|;
    TokenText(s, pos, pos, end);
  }

  /** One turn of the argument loop, told what `iterate_args` returns. */
  lemma {:induction false} TokensStep(s: seq<char>, pos: nat, w: string, end: nat, buf: seq<char>, np: nat)
    requires Framed(s, end) && Framed(buf, end)
    requires NextArg(s, pos, end) == Step(Some(pos), pos, np, buf)
    requires ArgText(NextArg(s, pos, end), end) == Some(w)
    ensures Tokens(s, pos, end) == [w] + Tokens(buf, np, end)
  {
  }

  /** One turn of the argument loop over a word: the word is the first
      token, and the loop resumes past its terminator on a buffer `buf` that
      is unchanged from there on. */
  lemma {:induction false} WordStep(s: seq<char>, pos: nat, w: string, end: nat) returns (buf: seq<char>)
    requires Framed(s, end) && IsWord(w) && pos + |w| <= end
    requires s[pos..pos + |w|] == w
    requires s[pos + |w|] == NUL || IsSpace(s[pos + |w|])
    ensures Framed(buf, end)
    ensures pos + |w| + 1 <= end ==> buf[pos + |w| + 1..end] == s[pos + |w| + 1..end]
    ensures Tokens(s, pos, end) == [w] + Tokens(buf, pos + |w| + 1, end)
  {
    WordAt(s, pos, w, end);
    var r := NextArg(s, pos, end);
    TokensStep(s, pos, w, end, r.buf, r.nextPos);
    buf := r.buf;
  }

  /** The round trip of the tokenizer: words joined by single spaces and
      followed by a tail of white space come back word by word, and then
      NULL. A tail of two or more white-space bytes (or a line of white space
      only) yields one extra empty token, the quirk of `WhitespaceTail`. */
  lemma {:induction false} TokensOfJoin(s: seq<char>, pos: nat, ws: seq<string>, tail: string, end: nat)
    requires forall i | 0 <= i < |ws| :: IsWord(ws[i])
    requires AllSpace(tail)
    requires end == pos + |Join(ws) + tail| && Framed(s, end)
    requires s[pos..end] == Join(ws) + tail
    ensures Tokens(s, pos, end) == ws + (if |tail| >= 2 || (|ws| == 0 && |tail| >= 1) then [""] else [])
    decreases |ws|, 1
  {
    if |ws| == 0 {
      assert Join(ws) + tail == tail;
      TokensOfSpaces(s, pos, tail, end);
    } else if |ws| == 1 {
      assert Join(ws) + tail == ws[0] + tail;
      TokensOfLastWord(s, pos, ws[0], tail, end);
    } else {
      TokensOfCons(s, pos, ws, tail, end);
    }
  }

  /** A line of two or more words: the first word, then the rest of the
      line. */
  lemma {:induction false} TokensOfCons(s: seq<char>, pos: nat, ws: seq<string>, tail: string, end: nat)
    requires |ws| > 1 && forall i | 0 <= i < |ws| :: IsWord(ws[i])
    requires AllSpace(tail)
    requires end == pos + |Join(ws) + tail| && Framed(s, end)
    requires s[pos..end] == Join(ws) + tail
    ensures Tokens(s, pos, end) == ws + (if |tail| >= 2 then [""] else [])
    decreases |ws|, 0
  {
    var buf := ConsHead(s, pos, ws, tail, end);
    TokensOfJoin(buf, pos + |ws[0]| + 1, ws[1..], tail, end);
    AppendCons(ws, if |tail| >= 2 then [""] else []);
  }

  /** The first turn over a line of several words leaves the rest of the
      line, from one past the first word's space on, as it was. */
  lemma ConsHead(s: seq<char>, pos: nat, ws: seq<string>, tail: string, end: nat) returns (buf: seq<char>)
    requires |ws| > 1 && forall i | 0 <= i < |ws| :: IsWord(ws[i])
    requires end == pos + |Join(ws) + tail| && Framed(s, end)
    requires s[pos..end] == Join(ws) + tail
    ensures var np := pos + |ws[0]| + 1;
      && Framed(buf, end) && end == np + |Join(ws[1..]) + tail|
      && buf[np..end] == Join(ws[1..]) + tail
      && Tokens(s, pos, end) == [ws[0]] + Tokens(buf, np, end)
  {
    JoinCons(ws, tail);
    assert IsWord(ws[0]);
    buf := WordThenRest(s, pos, ws[0], ' ', Join(ws[1..]) + tail, end);
  }

  /** A line of several words is its first word, one space, and the rest of
      the line. */
  lemma JoinCons(ws: seq<string>, tail: string)
    requires |ws| > 1
    ensures Join(ws) + tail == ws[0] + ([' '] + (Join(ws[1..]) + tail))
  {
  }

  lemma AppendCons<T>(ws: seq<T>, x: seq<T>)
    requires |ws| > 0
    ensures [ws[0]] + (ws[1..] + x) == ws + x
  {
    assert [ws[0]] + ws[1..] == ws;
  }

  /** A stretch of white space only: nothing at all when it is empty,
      otherwise one empty token. */
  lemma {:induction false} TokensOfSpaces(s: seq<char>, pos: nat, tail: string, end: nat)
    requires AllSpace(tail) && end == pos + |tail| && Framed(s, end)
    requires s[pos..end] == tail
    ensures Tokens(s, pos, end) == if |tail| >= 1 then [""] else []
  {
    if |tail| > 0 {
      assert forall k | pos <= k < end :: s[k] == tail[k - pos];
      WhitespaceTail(s, pos, end);
      var r := NextArg(s, pos, end);
      assert Tokens(r.buf, r.nextPos, end) == [];
    }
  }

  /** The last word of a line, then its white-space tail. */
  lemma {:induction false} TokensOfLastWord(s: seq<char>, pos: nat, w: string, tail: string, end: nat)
    requires IsWord(w) && AllSpace(tail) && end == pos + |w + tail| && Framed(s, end)
    requires s[pos..end] == w + tail
    ensures Tokens(s, pos, end) == [w] + if |tail| >= 2 then [""] else []
  {
    var np := pos + |w| + 1;
    var buf := LastWordHead(s, pos, w, tail, end);
    if |tail| > 0 {
      TokensOfSpaces(buf, np, tail[1..], end);
    } else {
      assert Tokens(buf, np, end) == [];
    }
  }

  /** The first turn over a last word leaves its tail, less the byte that
      ended the word, as it was. */
  lemma LastWordHead(s: seq<char>, pos: nat, w: string, tail: string, end: nat) returns (buf: seq<char>)
    requires IsWord(w) && end == pos + |w + tail| && Framed(s, end)
    requires s[pos..end] == w + tail
    requires |tail| == 0 || IsSpace(tail[0])
    ensures var np := pos + |w| + 1;
      && Framed(buf, end)
      && (|tail| > 0 ==> buf[np..end] == tail[1..])
      && Tokens(s, pos, end) == [w] + Tokens(buf, np, end)
  {
    var np := pos + |w| + 1;
    Split(s, pos, end, w, tail);
    if |tail| > 0 {
      assert s[pos + |w|] == tail[0];
      assert s[np..end] == tail[1..];
    }
    buf := WordStep(s, pos, w, end);
  }

  /** A slice that is a concatenation splits into its two parts. */
  lemma Split(s: seq<char>, pos: nat, end: nat, a: string, b: string)
    requires pos + |a| + |b| == end <= |s| && s[pos..end] == a + b
    ensures s[pos..pos + |a|] == a && s[pos + |a|..end] == b
  {
    assert s[pos..pos + |a|] == (a + b)[..|a|];
    assert s[pos + |a|..end] == (a + b)[|a|..];
  }

  /** Where the argument loop of a command stands: the buffer and the
      current `arglist`. */
  datatype Cursor = Cursor(buf: seq<char>, arglist: nat)

  /** The cursor after `n` turns of `arg = arglist; iterate_args(&arg,
      &arglist, arglist_end)`. A turn that returns NULL leaves both alone. */
  function Consumed(s: seq<char>, arglist: nat, end: nat, n: nat): (c: Cursor)
    requires Framed(s, end)
    ensures Framed(c.buf, end)
    decreases n
  {
    if n == 0 then Cursor(s, arglist)
    else
      var r := NextArg(s, arglist, end);
      Consumed(r.buf, r.nextPos, end, n - 1)
  }

  /** The text of the argument that turn `k + 1` returns; None for NULL. */
  function Argument(s: seq<char>, arglist: nat, end: nat, k: nat): Option<string>
    requires Framed(s, end)
  {
    var c := Consumed(s, arglist, end, k);
    ArgText(NextArg(c.buf, c.arglist, end), end)
  }

  /** The `k`-th argument a command reads is the `k`-th token of its
      argument list, and NULL once the tokens have run out. */
  lemma {:induction false} ArgumentIsToken(s: seq<char>, arglist: nat, end: nat, k: nat)
    requires Framed(s, end)
    ensures var ts := Tokens(s, arglist, end);
      Argument(s, arglist, end, k) == if k < |ts| then Some(ts[k]) else None
    decreases k
  {
    var r := NextArg(s, arglist, end);
    if r.token.None? {
      NullStays(s, arglist, end, k);
    } else if k > 0 {
      ArgumentIsToken(r.buf, r.nextPos, end, k - 1);
      assert Consumed(s, arglist, end, k) == Consumed(r.buf, r.nextPos, end, k - 1);
    }
  }

  /** Once `iterate_args` has returned NULL, every further turn does too. */
  lemma {:induction false} NullStays(s: seq<char>, arglist: nat, end: nat, k: nat)
    requires Framed(s, end) && NextArg(s, arglist, end).token.None?
    ensures Consumed(s, arglist, end, k) == Cursor(s, arglist)
    ensures Argument(s, arglist, end, k) == None
    decreases k
  {
    IterateSpec(s, arglist, arglist, end);
    if k > 0 {
      NullStays(s, arglist, end, k - 1);
    }
  }

  /** Turn `k + 1` of the idiom follows turn `k`: it is one more
      `iterate_args` from where the first `k` turns left the cursor. */
  lemma {:induction false} ConsumedStep(s: seq<char>, arglist: nat, end: nat, k: nat)
    requires Framed(s, end)
    ensures var c := Consumed(s, arglist, end, k);
      var r := NextArg(c.buf, c.arglist, end);
      Consumed(s, arglist, end, k + 1) == Cursor(r.buf, r.nextPos)
    decreases k
  {
    if k > 0 {
      var r := NextArg(s, arglist, end);
      ConsumedStep(r.buf, r.nextPos, end, k - 1);
    }
  }

  /** Turn `k + 1` of `arg = arglist; iterate_args(&arg, &arglist,
      arglist_end)` on a buffer that the first `k` turns, begun at `arglist0`
      on the buffer contents `s`, have left in `a`: the text of the argument
      (None for NULL) and the new `arglist`. */
  method NextArgument(a: array<char>, ghost s: seq<char>, ghost arglist0: nat, arglist: nat, end: nat, ghost k: nat)
    returns (arg: Option<string>, rest: nat)
    requires Framed(s, end) && Consumed(s, arglist0, end, k) == Cursor(a[..], arglist)
    modifies a
    ensures arg == Argument(s, arglist0, end, k)
    ensures arg.Some? ==> NoNul(arg.value)
    ensures Consumed(s, arglist0, end, k + 1) == Cursor(a[..], rest)
  {
    var token, pos;
    token, pos, rest := IterateArgs(a, arglist, arglist, end);
    ConsumedStep(s, arglist0, end, k);
    if token.None? {
      arg := None;
    } else {
      arg := Some(CStr(a[..], token.value, end));
      CStrSpec(a[..], token.value, end);
    }
  }

  /** Skipping a run of white space from `i` gets as far as skipping from
      any point inside the run. */
  lemma {:induction false} SkipSpacesFrom(s: seq<char>, i: nat, q: nat, end: nat)
    requires Framed(s, end) && i <= q <= end
    requires forall k | i <= k < q :: IsSpace(s[k])
    ensures SkipSpaces(s, i, end) == SkipSpaces(s, q, end)
    decreases q - i
  {
    if i < q {
      SkipSpacesFrom(s, i + 1, q, end);
    }
  }

  /** White space before a word does not change the tokens: a leading run,
      or the rest of a run after the byte `iterate_args` turned into NUL, is
      skipped. Only a run that reaches `end` yields the empty token of
      `WhitespaceTail`. */
  lemma {:induction false} TokensSkipSpaces(s: seq<char>, pos: nat, q: nat, end: nat)
    requires Framed(s, end) && pos <= q < end
    requires forall k | pos <= k < q :: IsSpace(s[k])
    ensures Tokens(s, pos, end) == Tokens(s, q, end)
  {
    SkipSpacesFrom(s, pos, q, end);
    assert NextArg(s, pos, end) == NextArg(s, q, end);
  }

  /** Words laid out with white space of any length before each: `gaps[0]`
      leads the line (it may be empty) and `gaps[i]` separates `ws[i - 1]`
      from `ws[i]`. */
  function Spaced(ws: seq<string>, gaps: seq<string>): string
    requires |gaps| == |ws|
    decreases |ws|
  {
    if |ws| == 0 then "" else gaps[0] + ws[0] + Spaced(ws[1..], gaps[1..])
  }

  /** Every gap is white space, and every gap between two words holds at
      least one byte. */
  predicate Gaps(gaps: seq<string>) {
    forall i | 0 <= i < |gaps| :: AllSpace(gaps[i]) && (i > 0 ==> |gaps[i]| > 0)
  }

  predicate Words(ws: seq<string>) {
    forall i | 0 <= i < |ws| :: IsWord(ws[i])
  }

  /** The round trip of the tokenizer for any spacing: leading white space
      and runs of several white-space bytes between the words are skipped,
      so the words come back one by one, then NULL. As for `TokensOfJoin`,
      a tail of two or more white-space bytes (or a line of white space
      only) yields one extra empty token. */
  lemma {:induction false} TokensOfSpaced(s: seq<char>, pos: nat, ws: seq<string>, gaps: seq<string>, tail: string, end: nat)
    requires |gaps| == |ws| && Gaps(gaps) && Words(ws) && AllSpace(tail)
    requires end == pos + |Spaced(ws, gaps) + tail| && Framed(s, end)
    requires s[pos..end] == Spaced(ws, gaps) + tail
    ensures Tokens(s, pos, end) == ws + (if |tail| >= 2 || (|ws| == 0 && |tail| >= 1) then [""] else [])
    decreases |ws|, 1
  {
    if |ws| == 0 {
      assert Spaced(ws, gaps) + tail == tail;
      TokensOfSpaces(s, pos, tail, end);
    } else {
      var q := SpacedLead(s, pos, ws, gaps, tail, end);
      TokensFromWord(s, q, ws, gaps, tail, end);
    }
  }

  /** A spaced line from its first word on. */
  lemma {:induction false} TokensFromWord(s: seq<char>, q: nat, ws: seq<string>, gaps: seq<string>, tail: string, end: nat)
    requires |ws| > 0 && |gaps| == |ws| && Gaps(gaps) && Words(ws) && AllSpace(tail)
    requires end == q + |ws[0] + Spaced(ws[1..], gaps[1..]) + tail| && Framed(s, end)
    requires s[q..end] == ws[0] + Spaced(ws[1..], gaps[1..]) + tail
    ensures Tokens(s, q, end) == ws + (if |tail| >= 2 then [""] else [])
    decreases |ws|, 0
  {
    assert IsWord(ws[0]);
    if |ws| == 1 {
      assert ws[0] + Spaced(ws[1..], gaps[1..]) + tail == ws[0] + tail;
      TokensOfLastWord(s, q, ws[0], tail, end);
    } else {
      var buf, gaps' := SpacedHead(s, q, ws, gaps, tail, end);
      TokensOfSpaced(buf, q + |ws[0]| + 1, ws[1..], gaps', tail, end);
      AppendCons(ws, if |tail| >= 2 then [""] else []);
    }
  }

  /** `Spaced` of a non-empty line is its first gap, then its first word,
      then the rest. */
  lemma SpacedCons(ws: seq<string>, gaps: seq<string>)
    requires |ws| > 0 && |gaps| == |ws|
    ensures Spaced(ws, gaps) == gaps[0] + (ws[0] + Spaced(ws[1..], gaps[1..]))
  {
    assert gaps[0] + ws[0] + Spaced(ws[1..], gaps[1..]) == gaps[0] + (ws[0] + Spaced(ws[1..], gaps[1..]));
  }

  /** The leading gap is skipped: the tokens start at the first word `q`. */
  lemma SpacedLead(s: seq<char>, pos: nat, ws: seq<string>, gaps: seq<string>, tail: string, end: nat) returns (q: nat)
    requires |ws| > 0 && |gaps| == |ws| && Gaps(gaps) && Words(ws)
    requires end == pos + |Spaced(ws, gaps) + tail| && Framed(s, end)
    requires s[pos..end] == Spaced(ws, gaps) + tail
    ensures q == pos + |gaps[0]| && end == q + |ws[0] + Spaced(ws[1..], gaps[1..]) + tail|
    ensures s[q..end] == ws[0] + Spaced(ws[1..], gaps[1..]) + tail
    ensures Tokens(s, pos, end) == Tokens(s, q, end)
  {
    q := pos + |gaps[0]|;
    var rest := ws[0] + Spaced(ws[1..], gaps[1..]) + tail;
    assert Spaced(ws, gaps) + tail == gaps[0] + rest;
    Split(s, pos, end, gaps[0], rest);
    forall k | pos <= k < q
      ensures IsSpace(s[k])
    {
      assert s[k] == s[pos..q][k - pos];
    }
    assert IsWord(ws[0]);
    TokensSkipSpaces(s, pos, q, end);
  }

  /** The first word of several, at `q`: it is read, its delimiter is the
      first byte of the next gap, and the rest of the line is left as it
      was, with that gap one byte shorter. */
  lemma SpacedHead(s: seq<char>, q: nat, ws: seq<string>, gaps: seq<string>, tail: string, end: nat)
    returns (buf: seq<char>, gaps': seq<string>)
    requires |ws| > 1 && |gaps| == |ws| && Gaps(gaps) && Words(ws)
    requires end == q + |ws[0] + Spaced(ws[1..], gaps[1..]) + tail| && Framed(s, end)
    requires s[q..end] == ws[0] + Spaced(ws[1..], gaps[1..]) + tail
    ensures var np := q + |ws[0]| + 1;
      && |gaps'| == |ws| - 1 && Gaps(gaps') && Framed(buf, end)
      && end == np + |Spaced(ws[1..], gaps') + tail|
      && buf[np..end] == Spaced(ws[1..], gaps') + tail
      && Tokens(s, q, end) == [ws[0]] + Tokens(buf, np, end)
  {
    gaps' := [gaps[1][1..]] + gaps[2..];
    GapsRest(gaps, gaps');
    SpacedRest(ws, gaps, gaps', tail);
    assert IsWord(ws[0]) && AllSpace(gaps[1]);
    buf := WordThenRest(s, q, ws[0], gaps[1][0], Spaced(ws[1..], gaps') + tail, end);
  }

  /** A word, one white-space byte, and `more`: the word is read and `more`
      is left as it was. */
  lemma WordThenRest(s: seq<char>, q: nat, w: string, c: char, more: string, end: nat) returns (buf: seq<char>)
    requires Framed(s, end) && IsWord(w) && IsSpace(c) && end == q + |w| + 1 + |more|
    requires s[q..end] == w + ([c] + more)
    ensures Framed(buf, end) && buf[q + |w| + 1..end] == more
    ensures Tokens(s, q, end) == [w] + Tokens(buf, q + |w| + 1, end)
  {
    LineSlices(s, q, end, w, c, more);
    buf := WordStep(s, q, w, end);
  }

  lemma LineSlices(s: seq<char>, q: nat, end: nat, w: string, c: char, more: string)
    requires end == q + |w| + 1 + |more| && end <= |s|
    requires s[q..end] == w + ([c] + more)
    ensures s[q..q + |w|] == w && s[q + |w|] == c && s[q + |w| + 1..end] == more
  {
    Split(s, q, end, w, [c] + more);
    assert s[q + |w|] == ([c] + more)[0];
    assert s[q + |w| + 1..end] == ([c] + more)[1..];
  }

  /** Taking the first byte off the second gap keeps the gaps well formed. */
  lemma GapsRest(gaps: seq<string>, gaps': seq<string>)
    requires |gaps| > 1 && Gaps(gaps) && gaps' == [gaps[1][1..]] + gaps[2..]
    ensures |gaps'| == |gaps| - 1 && Gaps(gaps')
  {
    forall i | 0 <= i < |gaps'|
      ensures AllSpace(gaps'[i]) && (i > 0 ==> |gaps'[i]| > 0)
    {
      if i == 0 {
        assert AllSpace(gaps[1]);
      } else {
        assert gaps'[i] == gaps[i + 1];
      }
    }
  }

  /** The rest of a spaced line after its first word starts with the first
      byte of the second gap. */
  lemma SpacedRest(ws: seq<string>, gaps: seq<string>, gaps': seq<string>, tail: string)
    requires |ws| > 1 && |gaps| == |ws| && Gaps(gaps) && gaps' == [gaps[1][1..]] + gaps[2..]
    ensures |gaps'| == |ws| - 1
    ensures ws[0] + Spaced(ws[1..], gaps[1..]) + tail
         == ws[0] + ([gaps[1][0]] + (Spaced(ws[1..], gaps') + tail))
  {
    assert |gaps[1]| > 0;
    assert ws[1..][1..] == ws[2..] && gaps[1..][1..] == gaps[2..] && gaps'[1..] == gaps[2..];
    SpacedCons(ws[1..], gaps[1..]);
    SpacedCons(ws[1..], gaps');
    Regroup(ws[0], gaps[1], ws[1] + Spaced(ws[2..], gaps[2..]), tail);
  }

  lemma Regroup(w: string, g: string, later: string, tail: string)
    requires |g| > 0
    ensures w + (g + later) + tail == w + ([g[0]] + (g[1..] + later + tail))
  {
    assert g == [g[0]] + g[1..];
  }

  /** White space around and between the words is skipped: "  SET   A6"
      yields "SET", then "A6", then NULL. */
  lemma SpacedWords(s: seq<char>)
    requires s == "  SET   A6\0"
    ensures Tokens(s, 0, 10) == ["SET", "A6"]
  {
    assert s[0..10] == Spaced(["SET", "A6"], ["  ", "   "]) + "";
    TokensOfSpaced(s, 0, ["SET", "A6"], ["  ", "   "], "", 10);
  }

  /** The example of util.h: "bar baz" yields "bar", then "baz", then NULL. */
  lemma BarBaz(s: seq<char>)
    requires s == "bar baz\0"
    ensures Tokens(s, 0, 7) == ["bar", "baz"]
  {
    assert s[0..7] == Join(["bar", "baz"]) + "";
    TokensOfJoin(s, 0, ["bar", "baz"], "", 7);
  }
}
