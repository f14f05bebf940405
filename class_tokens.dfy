/**
 * The token list behind an element's `class` attribute, as the DOM's
 * `classList` (a DOMTokenList) sees it: the attribute value is split on
 * ASCII whitespace, duplicates are dropped keeping the first occurrence,
 * and every change writes the list back joined by single spaces.
 */
module ClassTokens {

  predicate IsAsciiWhitespace(c: char) {
    c == ' ' || c == '\t' || c == '\n' || c == '\r' || c == '\U{000C}'
  }

  /** A class name `classList.add` accepts: non-empty, without whitespace. */
  predicate IsToken(t: string) {
    |t| > 0 && forall i :: 0 <= i < |t| ==> !IsAsciiWhitespace(t[i])
  }

  predicate AllTokens(ts: seq<string>) {
    forall i :: 0 <= i < |ts| ==> IsToken(ts[i])
  }

  predicate Distinct(ts: seq<string>) {
    forall i, j :: 0 <= i < j < |ts| ==> ts[i] != ts[j]
  }

  /** A list of class names as a DOMTokenList holds them. */
  predicate IsTokenSet(ts: seq<string>) {
    AllTokens(ts) && Distinct(ts)
  }

  /** The longest prefix of s without whitespace. */
  function LeadingToken(s: string): (w: string)
    ensures |w| <= |s| && w == s[..|w|]
    ensures forall i :: 0 <= i < |w| ==> !IsAsciiWhitespace(w[i])
    ensures |w| == |s| || IsAsciiWhitespace(s[|w|])
  {
    if s == [] || IsAsciiWhitespace(s[0]) then [] else [s[0]] + LeadingToken(s[1..])
  }

  /** Splitting on ASCII whitespace: the tokens of s in order, empty ones skipped. */
  function Split(s: string): seq<string>
    decreases |s|
  {
    if s == [] then []
    else if IsAsciiWhitespace(s[0]) then Split(s[1..])
    else
      var w := LeadingToken(s);
      [w] + Split(s[|w|..])
  }

  lemma {:induction false} SplitGivesTokens(s: string)
    ensures AllTokens(Split(s))
    decreases |s|
  {
    if s != [] {
      if IsAsciiWhitespace(s[0]) {
        SplitGivesTokens(s[1..]);
      } else {
        var w := LeadingToken(s);
        assert IsToken(w);
        SplitGivesTokens(s[|w|..]);
      }
    }
  }

  /** Appends t unless it is already present (the ordered-set append). */
  function AddToken(ts: seq<string>, t: string): seq<string> {
    if t in ts then ts else ts + [t]
  }

  /** The ordered-set parser's deduplication: earlier occurrences win. */
  function OrderedSet(ts: seq<string>): (r: seq<string>)
  {
    if ts == [] then [] else AddToken(OrderedSet(ts[..|ts| - 1]), ts[|ts| - 1])
  }

  /** The ordered-set serializer: the tokens joined by single spaces. */
  function Serialize(ts: seq<string>): string {
    if ts == [] then "" else if |ts| == 1 then ts[0] else ts[0] + " " + Serialize(ts[1..])
  }

  /** The tokens of ts that are not in removed, in order. */
  function RemoveTokens(ts: seq<string>, removed: seq<string>): (r: seq<string>)
  {
    if ts == [] then []
    else if ts[0] in removed then RemoveTokens(ts[1..], removed)
    else [ts[0]] + RemoveTokens(ts[1..], removed)
  }

  lemma {:induction false} LeadingTokenOfToken(t: string, rest: string)
    requires IsToken(t)
    requires rest == [] || IsAsciiWhitespace(rest[0])
    ensures LeadingToken(t + rest) == t
  {
    if |t| > 1 {
      assert (t + rest)[1..] == t[1..] + rest;
      LeadingTokenOfToken(t[1..], rest);
    } else {
      assert (t + rest)[1..] == rest;
    }
  }

  /** Serializing a list of tokens and splitting the result gives the list back. */
  lemma {:induction false} SplitSerialize(ts: seq<string>)
    requires AllTokens(ts)
    ensures Split(Serialize(ts)) == ts
  {
    if |ts| == 1 {
      LeadingTokenOfToken(ts[0], "");
      assert ts[0] + "" == ts[0];
    } else if |ts| > 1 {
      var s := Serialize(ts);
      var tail := Serialize(ts[1..]);
      assert s == ts[0] + (" " + tail);
      SplitSerialize(ts[1..]);
      LeadingTokenOfToken(ts[0], " " + tail);
      assert s[|ts[0]|..] == " " + tail;
      assert (" " + tail)[1..] == tail;
    }
  }

  lemma {:induction false} OrderedSetIsTokenSet(ts: seq<string>)
    requires AllTokens(ts)
    ensures IsTokenSet(OrderedSet(ts))
  {
    if ts != [] {
      OrderedSetIsTokenSet(ts[..|ts| - 1]);
    }
  }

  lemma {:induction false} OrderedSetOfTokenSet(ts: seq<string>)
    requires Distinct(ts)
    ensures OrderedSet(ts) == ts
  {
    if ts != [] {
      var init := ts[..|ts| - 1];
      OrderedSetOfTokenSet(init);
      assert ts[|ts| - 1] !in init;
      assert init + [ts[|ts| - 1]] == ts;
    }
  }

  lemma AddTokenKeepsTokenSet(ts: seq<string>, t: string)
    requires IsTokenSet(ts) && IsToken(t)
    ensures IsTokenSet(AddToken(ts, t))
  {
  }

  /** The ordered-set append keeps what was there, in order, and adds t. */
  lemma AddTokenFacts(ts: seq<string>, t: string)
    requires IsTokenSet(ts) && IsToken(t)
    ensures var r := AddToken(ts, t);
      && IsTokenSet(r) && |ts| <= |r| && r[..|ts|] == ts
      && forall u :: u in r <==> u in ts || u == t
  {
    AddTokenKeepsTokenSet(ts, t);
    assert AddToken(ts, t)[..|ts|] == ts;
  }

  lemma {:induction false} RemoveTokensKeepsTokenSet(ts: seq<string>, removed: seq<string>)
    requires IsTokenSet(ts)
    ensures IsTokenSet(RemoveTokens(ts, removed))
    ensures forall t :: t in RemoveTokens(ts, removed) <==> t in ts && t !in removed
  {
    if ts != [] {
      RemoveTokensKeepsTokenSet(ts[1..], removed);
    }
  }

  /** The token set a serialized token set parses back to is itself. */
  lemma ParseSerialized(ts: seq<string>)
    requires IsTokenSet(ts)
    ensures OrderedSet(Split(Serialize(ts))) == ts
  {
    SplitSerialize(ts);
    OrderedSetOfTokenSet(ts);
  }
}
