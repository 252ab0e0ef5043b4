/** The regular-expression matcher of user/grep.c.

    A C string is the sequence of characters before its terminator, so a test
    against the terminator is a test for the end of the sequence.

    The meaning of a pattern is given without any search: a pattern reads as a
    sequence of items, and it matches where the items can be laid end to end
    over consecutive pieces of the text. */
module Grep {

  /** One pattern element: a character, a starred character, or the final `$`. */
  datatype Item = One(c: char) | Many(c: char) | EndOfText

  predicate Admits(c: char, x: char) {
    c == '.' || c == x
  }

  /** How a pattern reads: a star binds the character before it, and `$` is an
      anchor only in the last position. */
  function Items(re: string): seq<Item> {
    if re == "" then []
    else if |re| >= 2 && re[1] == '*' then [Many(re[0])] + Items(re[2..])
    else if re == "$" then [EndOfText]
    else [One(re[0])] + Items(re[1..])
  }

  /** The piece of text that one item may stand for. */
  predicate Spans(item: Item, piece: string) {
    match item
    case One(c) => |piece| == 1 && Admits(c, piece[0])
    case Many(c) => forall i :: 0 <= i < |piece| ==> Admits(c, piece[i])
    case EndOfText => piece == ""
  }

  function Joined(pieces: seq<string>): string {
    if pieces == [] then "" else pieces[0] + Joined(pieces[1..])
  }

  /** The pieces spell a prefix of the text, or all of it under an end anchor. */
  ghost predicate Laid(items: seq<Item>, pieces: seq<string>, text: string) {
    && |pieces| == |items|
    && (forall i :: 0 <= i < |items| ==> Spans(items[i], pieces[i]))
    && Joined(pieces) <= text
    && (EndOfText in items ==> Joined(pieces) == text)
  }

  ghost predicate MatchesHere(items: seq<Item>, text: string) {
    exists pieces :: Laid(items, pieces, text)
  }

  /** Some suffix of the text starts with the items. */
  ghost predicate MatchesSomewhere(items: seq<Item>, text: string) {
    exists i :: 0 <= i <= |text| && MatchesHere(items, text[i..])
  }

  /** The whole pattern language: a leading `^` ties the match to the start. */
  ghost predicate Matches(re: string, text: string) {
    if re != "" && re[0] == '^' then MatchesHere(Items(re[1..]), text)
    else MatchesSomewhere(Items(re), text)
  }

  lemma {:induction false} NoItems(text: string)
    ensures MatchesHere([], text)
  {
    assert Laid([], [], text);
  }

  lemma {:induction false} EndItem(text: string)
    ensures MatchesHere([EndOfText], text) <==> text == ""
  {
    if text == "" {
      assert Joined([""][1..]) == "";
      assert Laid([EndOfText], [""], text);
    }
    if MatchesHere([EndOfText], text) {
      var pieces :| Laid([EndOfText], pieces, text);
      assert Spans(EndOfText, pieces[0]);
      assert pieces[1..] == [];
      assert Joined(pieces) == pieces[0] + Joined(pieces[1..]);
    }
  }

  /** Prefixing an item prefixes a piece. */
  lemma {:induction false} LayFirst(item: Item, rest: seq<Item>, k: nat, text: string)
    requires k <= |text| && Spans(item, text[..k]) && item != EndOfText
    requires MatchesHere(rest, text[k..])
    ensures MatchesHere([item] + rest, text)
  {
    var pieces :| Laid(rest, pieces, text[k..]);
    var all := [text[..k]] + pieces;
    assert all[1..] == pieces;
    assert Joined(all) == text[..k] + Joined(pieces);
    assert text == text[..k] + text[k..];
    assert Laid([item] + rest, all, text);
  }

  lemma {:induction false} TakeFirst(item: Item, rest: seq<Item>, text: string) returns (k: nat)
    requires MatchesHere([item] + rest, text) && item != EndOfText
    ensures k <= |text| && Spans(item, text[..k]) && MatchesHere(rest, text[k..])
  {
    var items := [item] + rest;
    var pieces :| Laid(items, pieces, text);
    k := |pieces[0]|;
    var tail := pieces[1..];
    assert Joined(pieces) == pieces[0] + Joined(tail);
    assert pieces[0] == text[..k] by {
      assert Joined(pieces)[..k] == pieces[0];
    }
    assert Spans(items[0], pieces[0]);
    assert forall i :: 0 <= i < |rest| ==> rest[i] == items[i + 1] && tail[i] == pieces[i + 1];
    assert Joined(tail) == Joined(pieces)[k..];
    assert EndOfText in rest ==> EndOfText in items;
    assert Laid(rest, tail, text[k..]);
  }

  lemma {:induction false} OneItem(c: char, rest: seq<Item>, text: string)
    ensures MatchesHere([One(c)] + rest, text)
       <==> text != "" && Admits(c, text[0]) && MatchesHere(rest, text[1..])
  {
    if MatchesHere([One(c)] + rest, text) {
      var k := TakeFirst(One(c), rest, text);
    }
    if text != "" && Admits(c, text[0]) && MatchesHere(rest, text[1..]) {
      LayFirst(One(c), rest, 1, text);
    }
  }

  /** A starred item matches exactly when some run of admitted characters is
      followed by a match of the rest. */
  lemma {:induction false} ManyItem(c: char, rest: seq<Item>, text: string)
    ensures MatchesHere([Many(c)] + rest, text)
       <==> exists k :: 0 <= k <= |text| && Spans(Many(c), text[..k]) && MatchesHere(rest, text[k..])
  {
    if MatchesHere([Many(c)] + rest, text) {
      var k := TakeFirst(Many(c), rest, text);
    }
    if k :| 0 <= k <= |text| && Spans(Many(c), text[..k]) && MatchesHere(rest, text[k..]) {
      LayFirst(Many(c), rest, k, text);
    }
  }

  method Match(re: string, text: string) returns (found: bool)
    ensures found <==> Matches(re, text)
  {
    if re != "" && re[0] == '^' {
      found := MatchHere(re[1..], text);
      return;
    }
    var t := 0;
    while true
      invariant 0 <= t <= |text|
      invariant forall i :: 0 <= i < t ==> !MatchesHere(Items(re), text[i..])
      decreases |text| - t
    {
      found := MatchHere(re, text[t..]);
      if found {
        return;
      }
      if t == |text| {
        return;
      }
      t := t + 1;
    }
  }

  method MatchHere(re: string, text: string) returns (found: bool)
    ensures found <==> MatchesHere(Items(re), text)
    decreases |re|
  {
    if re == "" {
      NoItems(text);
      return true;
    }
    if |re| >= 2 && re[1] == '*' {
      found := MatchStar(re[0], re[2..], text);
      return;
    }
    if re == "$" {
      EndItem(text);
      return text == "";
    }
    OneItem(re[0], Items(re[1..]), text);
    if text != "" && (re[0] == '.' || re[0] == text[0]) {
      found := MatchHere(re[1..], text[1..]);
      return;
    }
    return false;
  }

  method MatchStar(c: char, re: string, text: string) returns (found: bool)
    ensures found <==> MatchesHere([Many(c)] + Items(re), text)
    decreases |re| + 1
  {
    ManyItem(c, Items(re), text);
    var t := 0;
    while true
      invariant 0 <= t <= |text|
      invariant Spans(Many(c), text[..t])
      invariant forall k :: 0 <= k < t ==> !MatchesHere(Items(re), text[k..])
      decreases |text| - t
    {
      found := MatchHere(re, text[t..]);
      if found {
        return;
      }
      if t == |text| || !(text[t] == c || c == '.') {
        assert forall k :: t < k <= |text| && Spans(Many(c), text[..k]) ==> text[..k][t] == text[t];
        return;
      }
      assert text[..t + 1] == text[..t] + [text[t]];
      t := t + 1;
    }
  }
}
