/**
 `cJSON_Minify` (lib/cJSON.c:747-762): what it keeps of a text, its in-place
 loop, and why the shorter text means the same.
 */
module Minifier {
  import opened CText
  import opened Literal
  import opened LiteralProofs
  import RoundTrip

  // ------------------------------------------------------------ what is kept

  predicate Stripped(c: char) {
    c == ' ' || c == '\t' || c == '\r' || c == '\n'
  }

  /** Where a `//` comment ends. */
  function LineEnd(s: string): (r: string)
    ensures |r| <= |s|
  {
    if s == "" || s[0] == '\n' then s else LineEnd(s[1..])
  }

  /** Where a block comment ends, scanned from its slash; none if it never does. */
  function BlockEnd(s: string): (r: Option<string>)
    ensures r.Some? ==> |r.value| + 2 <= |s|
  {
    if s == "" then None
    else if s[0] == '*' && At(s, 1) == '/' then Some(s[2..])
    else BlockEnd(s[1..])
  }

  /** One turn of the loop: the bytes copied and the cursor after them; none
      where the loop would run past the terminator. */
  function Turn(s: string): (r: Option<(string, string)>)
    requires s != ""
    ensures r.Some? ==> |r.value.1| < |s|
  {
    if Stripped(s[0]) then Some(("", s[1..]))
    else if s[0] == '/' && At(s, 1) == '/' then
      assert LineEnd(s) == LineEnd(s[1..]);
      Some(("", LineEnd(s)))
    else if s[0] == '/' && At(s, 1) == '*' then
      (match BlockEnd(s) case Some(r) => Some(("", r)) case None => None)
    else if s[0] == '\"' then
      var count := CountPass(s[1..]);
      if count.Ok? && count.rest != "" then Some((s[..|s| - |count.rest| + 1], count.rest[1..])) else None
    else Some(([s[0]], s[1..]))
  }

  /** Every literal is closed and every block comment ends. */
  ghost predicate Minifiable(s: string)
    decreases |s|
  {
    s == "" || (Turn(s).Some? && Minifiable(Turn(s).value.1))
  }

  /** The text left. */
  function Minify(s: string): string
    decreases |s|
  {
    if s == "" || Turn(s).None? then "" else Turn(s).value.0 + Minify(Turn(s).value.1)
  }

  /** Minifiable, with complete escapes in every literal. */
  ghost predicate WellQuoted(s: string)
    decreases |s|
  {
    s == "" ||
    (Turn(s).Some? && (s[0] == '\"' ==> CompleteEscapes(s[1..])) && WellQuoted(Turn(s).value.1))
  }

  lemma {:induction false} WellQuotedMinifiable(s: string)
    requires WellQuoted(s)
    ensures Minifiable(s)
    decreases |s|
  {
    if s != "" { WellQuotedMinifiable(Turn(s).value.1); }
  }

  // ---------------------------------------------------------- the loop itself

  lemma {:induction false} MinifyCString(s: string)
    requires CString(s)
    ensures CString(Minify(s)) && |Minify(s)| <= |s|
    decreases |s|
  {
    if s != "" && Turn(s).Some? {
      TurnCString(s);
      hide Turn;
      MinifyCString(Turn(s).value.1);
    }
  }

  lemma TurnCString(s: string)
    requires s != "" && CString(s) && Turn(s).Some?
    ensures CString(Turn(s).value.0) && CString(Turn(s).value.1) && |Turn(s).value.0| + |Turn(s).value.1| <= |s|
  {
    if s[0] == '/' && At(s, 1) == '/' {
      LineEndSuffix(s);
    } else if s[0] == '/' && At(s, 1) == '*' {
      BlockEndSuffix(s);
    }
  }

  lemma LineEndSuffix(s: string)
    ensures LineEnd(s) == s[|s| - |LineEnd(s)|..]
  {
  }

  lemma BlockEndSuffix(s: string)
    ensures BlockEnd(s).Some? ==> BlockEnd(s).value == s[|s| - |BlockEnd(s).value|..]
  {
  }

  /** From index `at` on, the buffer still holds what it did. */
  ghost predicate Unread(now: seq<char>, was: seq<char>, at: nat) {
    |now| == |was| && forall j | at <= j < |was| :: now[j] == was[j]
  }

  /** `*into++=*json++` */
  method CopyByte(json: array<char>, into: nat, at: nat, ghost was: seq<char>)
    requires into <= at < json.Length && Unread(json[..], was, at)
    modifies json
    ensures json[..into + 1] == old(json[..into]) + [was[at]]
    ensures Unread(json[..], was, at + 1)
  {
    json[into] := json[at];
  }

  lemma SliceJoins(text: string, before: string, i: nat, j: nat, k: nat)
    requires i <= j <= k <= |text|
    ensures before + text[i..j] + text[j..k] == before + text[i..k]
  {
    assert text[i..j] + text[j..k] == text[i..k];
  }

  /** The in-place loop, with `at` for `json` and `into` never ahead of it. */
  method MinifyInPlace(json: array<char>, ghost text: string)
    requires Holds(json[..], text) && Minifiable(text)
    modifies json
    ensures Holds(json[..], Minify(text))
    ensures Unread(json[..], old(json[..]), |text| + 1)
  {
    ghost var was := json[..];
    var into, at := 0, 0;
    assert text[0..] == text;
    while json[at] != '\0'
      invariant 0 <= into <= at <= |text| && Unread(json[..], was, at)
      invariant Minify(text) == json[..into] + Minify(text[at..]) && Minifiable(text[at..])
      decreases |text| - at
    {
      into, at := MinifyTurn(json, into, at, text, was);
    }
    assert at == |text| by { HoldsAt(was, text, at); }
    EndOfText(text, json[..into]);
    MinifyCString(text);
    json[into] := '\0';
  }

  /** One turn of the loop. */
  method MinifyTurn(json: array<char>, into0: nat, at0: nat, ghost text: string, ghost was: seq<char>)
    returns (into: nat, at: nat)
    requires Holds(was, text) && into0 <= at0 < |text| && Unread(json[..], was, at0)
    requires Minifiable(text[at0..])
    modifies json
    ensures into <= at && at0 < at <= |text| && Unread(json[..], was, at) && Minifiable(text[at..])
    ensures json[..into] + Minify(text[at..]) == old(json[..into0]) + Minify(text[at0..])
  {
    hide Turn, Minify, Minifiable, Holds, CString, CountPass, Consumed, LineEnd, BlockEnd, Unread;
    UnreadAt(json[..], was, at0);
    into, at := into0, at0;
    HoldsAt(was, text, at);
    HoldsAt(was, text, at + 1);
    MinifiableTurn(text[at..]);
    ghost var before, copied := json[..into], "";
    if json[at] == ' ' || json[at] == '\t' || json[at] == '\r' || json[at] == '\n' {
      PlainTurn(text, at);
      at := at + 1;
    } else if json[at] == '/' && json[at + 1] == '/' {
      CommentTurn(text, at);
      at := SkipLine(json, at, text, was);
    } else if json[at] == '/' && json[at + 1] == '*' {
      CommentTurn(text, at);
      at := SkipBlock(json, at, text, was);
    } else if json[at] == '\"' {
      LiteralTurn(text, at);
      into, at := CopyLiteral(json, into, at, text, was);
      copied := text[at0..at];
    } else {
      PlainTurn(text, at);
      CopyByte(json, into, at, was);
      copied := [text[at]];
      into, at := into + 1, at + 1;
    }
    MinifyStep(text[at0..], copied, text[at..]);
    RoundTrip.Assoc(before, copied, Minify(text[at..]));
  }

  lemma UnreadAt(now: seq<char>, was: seq<char>, at: nat)
    requires Unread(now, was, at)
    ensures |now| == |was| && forall j | at <= j < |was| :: now[j] == was[j] && Unread(now, was, j)
  {
  }

  lemma MinifiableTurn(s: string)
    requires s != "" && Minifiable(s)
    ensures Turn(s).Some? && (s[0] == '\"' ==> CountPass(s[1..]).Ok? && CountPass(s[1..]).rest != "")
  {
  }

  lemma MinifyStep(s: string, copied: string, rest: string)
    requires s != "" && Turn(s) == Some((copied, rest))
    ensures Minify(s) == copied + Minify(rest) && (Minifiable(s) ==> Minifiable(rest))
  {
    hide Turn;
  }

  lemma EndOfText(text: string, s: string)
    ensures text[|text|..] == "" && s + Minify(text[|text|..]) == s
  {
    assert text[|text|..] == "";
  }

  lemma PlainTurn(text: string, at: nat)
    requires at < |text|
    ensures Stripped(text[at]) ==> Turn(text[at..]) == Some(("", text[at + 1..]))
    ensures !Stripped(text[at]) && text[at] != '\"' && !(text[at] == '/' && At(text, at + 1) in "/*") ==>
              Turn(text[at..]) == Some(([text[at]], text[at + 1..]))
  {
    assert text[at..][1..] == text[at + 1..];
  }

  lemma CommentTurn(text: string, at: nat)
    requires at < |text| && text[at] == '/' && Turn(text[at..]).Some?
    ensures At(text, at + 1) == '/' ==> Turn(text[at..]) == Some(("", LineEnd(text[at..])))
    ensures At(text, at + 1) == '*' ==>
              BlockEnd(text[at..]).Some?
              && Turn(text[at..]) == Some(("", BlockEnd(text[at..]).value))
  {
  }

  /** The branch that passes a `//` comment. */
  method SkipLine(json: array<char>, at0: nat, ghost text: string, ghost was: seq<char>) returns (at: nat)
    requires Holds(was, text) && at0 < |text| && Unread(json[..], was, at0) && text[at0] == '/'
    ensures at0 < at <= |text| && text[at..] == LineEnd(text[at0..])
  {
    at := at0;
    while json[at] != '\0' && json[at] != '\n'
      invariant at0 <= at <= |text| && LineEnd(text[at0..]) == LineEnd(text[at..])
      decreases |text| - at
    {
      HoldsAt(was, text, at);
      assert text[at..][1..] == text[at + 1..];
      at := at + 1;
    }
    HoldsAt(was, text, at);
    HoldsAt(was, text, at0);
  }

  /** The branch that passes a block comment. */
  method SkipBlock(json: array<char>, at0: nat, ghost text: string, ghost was: seq<char>) returns (at: nat)
    requires Holds(was, text) && at0 < |text| && Unread(json[..], was, at0) && BlockEnd(text[at0..]).Some?
    ensures at0 < at <= |text| && BlockEnd(text[at0..]) == Some(text[at..])
  {
    at := at0;
    HoldsAt(was, text, at);
    while json[at] != '\0' && !(json[at] == '*' && json[at + 1] == '/')
      invariant at0 <= at <= |text| && BlockEnd(text[at0..]) == BlockEnd(text[at..]) && was[at] == At(text, at)
      decreases |text| - at
    {
      HoldsAt(was, text, at);
      HoldsAt(was, text, at + 1);
      assert text[at..][1..] == text[at + 1..];
      at := at + 1;
    }
    HoldsAt(was, text, at);
    if at < |text| { HoldsAt(was, text, at + 1); }
    assert text[at..][2..] == text[at + 2..];
    at := at + 2;
  }

  /** The branch that copies a string literal, escaped quotes included. */
  method CopyLiteral(json: array<char>, into0: nat, at0: nat, ghost text: string, ghost was: seq<char>)
    returns (into: nat, at: nat)
    requires Holds(was, text) && into0 <= at0 < |text| && Unread(json[..], was, at0) && text[at0] == '\"'
    requires CountPass(text[at0 + 1..]).Ok? && CountPass(text[at0 + 1..]).rest != ""
    modifies json
    ensures into <= at <= |text| && at0 < at && Unread(json[..], was, at)
    ensures "\"" + text[at..] == CountPass(text[at0 + 1..]).rest
    ensures json[..into] == old(json[..into0]) + text[at0..at]
  {
    hide CountPass, Consumed, Holds, CString, Unread;
    HoldsAt(was, text, at0);
    UnreadAt(json[..], was, at0);
    ghost var rest, before := CountPass(text[at0 + 1..]).rest, json[..into0];
    CopyByte(json, into0, at0, was);
    into, at := into0 + 1, at0 + 1;
    assert text[at0..at] == [was[at0]];
    UnreadAt(json[..], was, at);
    while json[at] != '\0' && json[at] != '\"'
      invariant into <= at <= |text| < json.Length && at0 < at && Unread(json[..], was, at) && json[at] == was[at]
      invariant json[..into] == before + text[at0..at]
      invariant CountPass(text[at..]).Ok? && CountPass(text[at..]).rest == rest
      decreases |text| - at
    {
      into, at := LiteralStep(json, into, at, at0, before, text, was);
    }
    HoldsAt(was, text, at);
    CountStop(text, at);
    CopyByte(json, into, at, was);
    into, at := into + 1, at + 1;
    SliceJoins(text, before, at0, at - 1, at);
  }

  /** One turn of the loop, with what it has copied since the opening quote. */
  method LiteralStep(json: array<char>, into0: nat, at0: nat, ghost start: nat, ghost before: string,
                     ghost text: string, ghost was: seq<char>)
    returns (into: nat, at: nat)
    requires Holds(was, text) && into0 <= at0 <= |text| < json.Length && Unread(json[..], was, at0) && start <= at0
    requires json[at0] == was[at0] != '\0' && was[at0] != '\"'
    requires json[..into0] == before + text[start..at0] && CountPass(text[at0..]).Ok?
    modifies json
    ensures into <= at <= |text| && at0 < at && Unread(json[..], was, at) && json[at] == was[at]
    ensures json[..into] == before + text[start..at]
    ensures CountPass(text[at..]).Ok? && CountPass(text[at..]).rest == CountPass(text[at0..]).rest
  {
    hide CountPass, Consumed, Holds, CString, Unread;
    HoldsAt(was, text, at0);
    CountTurn(text, at0);
    into, at := CopyEscaped(json, into0, at0, text, was);
    SliceJoins(text, before, start, at0, at);
    UnreadAt(json[..], was, at);
  }

  /** One turn of the literal loop: a byte, or a backslash and the byte after it. */
  method CopyEscaped(json: array<char>, into0: nat, at0: nat, ghost text: string, ghost was: seq<char>)
    returns (into: nat, at: nat)
    requires Holds(was, text) && into0 <= at0 < |text| && Unread(json[..], was, at0)
    requires text[at0] == '\\' ==> at0 + 1 < |text|
    modifies json
    ensures at == at0 + (if text[at0] == '\\' then 2 else 1) && into <= at && Unread(json[..], was, at)
    ensures json[..into] == old(json[..into0]) + text[at0..at]
  {
    hide Holds;
    HoldsAt(was, text, at0);
    into, at := into0, at0;
    if json[at] == '\\' {
      CopyByte(json, into, at, was);
      into, at := into + 1, at + 1;
      HoldsAt(was, text, at);
    }
    CopyByte(json, into, at, was);
    into, at := into + 1, at + 1;
  }

  lemma CountTurn(text: string, at: nat)
    requires at < |text| && text[at] != '\"' && CountPass(text[at..]).Ok?
    ensures var n := if text[at] == '\\' then 2 else 1;
      at + n <= |text| && CountPass(text[at + n..]).Ok? && CountPass(text[at + n..]).rest == CountPass(text[at..]).rest
  {
    var n := if text[at] == '\\' then 2 else 1;
    PlainCounted(text[at..], n);
    assert text[at..][n..] == text[at + n..];
  }

  lemma CountStop(text: string, at: nat)
    requires at <= |text| && CountPass(text[at..]).Ok? && CountPass(text[at..]).rest != ""
    requires at < |text| ==> text[at] == '\"'
    ensures at < |text| && CountPass(text[at..]).rest == text[at..] == "\"" + text[at + 1..]
  {
    CountEnds(text[at..]);
    hide CountPass;
    assert at < |text| ==> text[at..][0] == '\"';
  }

  lemma CountEnds(s: string)
    requires s == "" || s[0] == '\"'
    ensures CountPass(s) == Ok(0, s)
  {
  }

  /** The literal's turn, by indices. */
  lemma LiteralTurn(text: string, at: nat)
    requires at < |text| && text[at] == '\"' && Turn(text[at..]).Some?
    ensures CountPass(text[at + 1..]).Ok? && CountPass(text[at + 1..]).rest != ""
    ensures forall end: nat | end <= |text| && "\"" + text[end..] == CountPass(text[at + 1..]).rest ::
              Turn(text[at..]) == Some((text[at..end], text[end..]))
  {
    assert text[at..][1..] == text[at + 1..];
    forall end: nat | end <= |text| && "\"" + text[end..] == CountPass(text[at + 1..]).rest
      ensures Turn(text[at..]) == Some((text[at..end], text[end..]))
    {
      assert ("\"" + text[end..])[1..] == text[end..];
      assert text[at..][..end - at] == text[at..end];
    }
  }
}
