/** `strip_think` (backend.py:31-33): one left-to-right pass of the pattern
    `<think>[\s\S]*?</think>` under `re.IGNORECASE`, each match replaced by "",
    then `str.strip()`. */
module Think {
  import opened Wrappers
  import opened PyText

  const Open: string := "<think>"
  const Close: string := "</think>"

  /** Under `re.IGNORECASE` a pattern letter also matches its ASCII upper case;
      'i' also matches U+0130 and U+0131, and 'k' also matches the Kelvin sign U+212A. */
  predicate FoldsTo(c: char, p: char)
  {
    c == p
    || (p == 't' && c == 'T') || (p == 'h' && c == 'H') || (p == 'n' && c == 'N')
    || (p == 'i' && (c == 'I' || c == '\U{130}' || c == '\U{131}'))
    || (p == 'k' && (c == 'K' || c == '\U{212A}'))
  }

  /** `t` spells the marker `m`, case-insensitively. */
  predicate Spells(t: string, m: string)
  {
    |t| == |m| && forall k :: 0 <= k < |m| ==> FoldsTo(t[k], m[k])
  }

  /** The marker `m` occurs, case-insensitively, at index `i` of `s`. */
  predicate MarkerAt(s: string, i: nat, m: string)
  {
    i + |m| <= |s| && Spells(s[i..i + |m|], m)
  }

  /** The first closing marker at or after `from`: the lazy `[\s\S]*?` stops there. */
  function FindClose(s: string, from: nat): (r: Option<nat>)
    ensures r.Some? ==> from <= r.value && MarkerAt(s, r.value, Close)
    ensures r.Some? ==> forall k :: from <= k < r.value ==> !MarkerAt(s, k, Close)
    ensures r.None? ==> forall k :: from <= k ==> !MarkerAt(s, k, Close)
    decreases |s| - from
  {
    if from + |Close| > |s| then None
    else if MarkerAt(s, from, Close) then Some(from)
    else FindClose(s, from + 1)
  }

  /** `THINK_RE.sub("", s)`: a match is tried at each index from the left; one that
      starts with an opening marker and has a closing marker after it is dropped,
      through the first such closing marker, and scanning resumes after it. */
  function RemoveSpans(s: string): (r: string)
    ensures |r| <= |s|
    decreases |s|
  {
    if |s| == 0 then ""
    else if MarkerAt(s, 0, Open) && FindClose(s, |Open|).Some? then
      RemoveSpans(s[FindClose(s, |Open|).value + |Close|..])
    else [s[0]] + RemoveSpans(s[1..])
  }

  /** `s` holds a match: an opening marker with a closing marker after it. */
  ghost predicate HasSpan(s: string)
  {
    exists i: nat, j: nat :: i + |Open| <= j && MarkerAt(s, i, Open) && MarkerAt(s, j, Close)
  }

  /** `strip_think(s)`: `s or ""`, spans removed, then stripped. */
  function StripThink(s: Option<string>): (r: string)
    ensures Trimmed(r)
    ensures s == None || s == Some("") ==> r == ""
  {
    Strip(RemoveSpans(s.GetOr("")))
  }

  lemma MarkerAtTail(s: string, i: nat, m: string)
    requires |s| > 0
    ensures MarkerAt(s, i + 1, m) <==> MarkerAt(s[1..], i, m)
  {
    if i + 1 + |m| <= |s| {
      assert s[1..][i..i + |m|] == s[i + 1..i + 1 + |m|];
    }
  }

  /** A marker inside the middle part of a concatenation is a marker of the whole. */
  lemma MarkerAtInfix(a: string, t: string, b: string, i: nat, m: string)
    requires i + |m| <= |t|
    ensures MarkerAt(a + t + b, |a| + i, m) <==> MarkerAt(t, i, m)
  {
    assert (a + t + b)[|a| + i..|a| + i + |m|] == t[i..i + |m|];
  }

  lemma NotMarkerAt(s: string, i: nat, m: string, k: nat)
    requires k < |m| && i + k < |s| && !FoldsTo(s[i + k], m[k])
    ensures !MarkerAt(s, i, m)
  {
    if i + |m| <= |s| {
      assert s[i..i + |m|][k] == s[i + k];
    }
  }

  /** Both markers begin with '<', so text without '<' holds no marker. */
  lemma NoLtNoMarker(s: string, m: string)
    requires |m| > 0 && m[0] == '<' && '<' !in s
    ensures forall k: nat :: !MarkerAt(s, k, m)
  {
    forall k: nat ensures !MarkerAt(s, k, m) {
      if k < |s| {
        assert s[k] != '<';
        NotMarkerAt(s, k, m, 0);
      }
    }
  }

  /** Text without a match passes through unchanged. */
  lemma {:induction false} NoSpanUnchanged(s: string)
    requires !HasSpan(s)
    ensures RemoveSpans(s) == s
    decreases |s|
  {
    if |s| > 0 {
      var c := FindClose(s, |Open|);
      if MarkerAt(s, 0, Open) && c.Some? {
        assert HasSpan(s) by {
          assert 0 + |Open| <= c.value && MarkerAt(s, 0, Open) && MarkerAt(s, c.value, Close);
        }
      }
      assert !HasSpan(s[1..]) by {
        forall i: nat, j: nat | i + |Open| <= j
          ensures !(MarkerAt(s[1..], i, Open) && MarkerAt(s[1..], j, Close))
        {
          MarkerAtTail(s, i, Open);
          MarkerAtTail(s, j, Close);
        }
      }
      NoSpanUnchanged(s[1..]);
    }
  }

  /** Text without an opening marker passes through unchanged. */
  lemma NoOpenUnchanged(s: string)
    requires forall k: nat :: !MarkerAt(s, k, Open)
    ensures RemoveSpans(s) == s
  {
    NoSpanUnchanged(s);
  }

  /** Text with a match always loses characters. */
  lemma {:induction false} SpanShrinks(s: string)
    requires HasSpan(s)
    ensures |RemoveSpans(s)| < |s|
    decreases |s|
  {
    var i: nat, j: nat :| i + |Open| <= j && MarkerAt(s, i, Open) && MarkerAt(s, j, Close);
    var c := FindClose(s, |Open|);
    assert MarkerAt(s, 0, Open) ==> c.Some? by {
      assert c.None? ==> !MarkerAt(s, j, Close);
    }
    if !(MarkerAt(s, 0, Open) && c.Some?) {
      assert i >= 1;
      MarkerAtTail(s, i - 1, Open);
      MarkerAtTail(s, j - 1, Close);
      assert HasSpan(s[1..]) by {
        assert (i - 1) + |Open| <= j - 1 && MarkerAt(s[1..], i - 1, Open) && MarkerAt(s[1..], j - 1, Close);
      }
      SpanShrinks(s[1..]);
    }
  }

  /** The removal leaves its input unchanged exactly when the input holds no match. */
  lemma RemoveSpansUnchangedIff(s: string)
    ensures RemoveSpans(s) == s <==> !HasSpan(s)
  {
    if HasSpan(s) {
      SpanShrinks(s);
    } else {
      NoSpanUnchanged(s);
    }
  }

  /** Without any closing marker, an opening marker is left as it is. */
  lemma UnclosedKept(s: string)
    requires FindClose(s, 0).None?
    ensures RemoveSpans(s) == s
  {
    NoSpanUnchanged(s);
  }

  lemma FirstSpanAtStart(s: string, j: nat)
    requires MarkerAt(s, 0, Open) && |Open| <= j && MarkerAt(s, j, Close)
    requires forall k :: |Open| <= k < j ==> !MarkerAt(s, k, Close)
    ensures RemoveSpans(s) == RemoveSpans(s[j + |Close|..])
  {
    var c := FindClose(s, |Open|);
    assert c.Some? by {
      assert c.None? ==> !MarkerAt(s, j, Close);
    }
    assert c.value == j;
  }

  /** One step of the scan past a character that starts no match: the shifted
      text satisfies the premises of `FirstSpanRemoved` one index earlier. */
  lemma FirstSpanShift(s: string, i: nat, j: nat)
    requires MarkerAt(s, i, Open) && i + |Open| <= j && MarkerAt(s, j, Close)
    requires forall k :: i + |Open| <= k < j ==> !MarkerAt(s, k, Close)
    requires forall k :: 0 <= k < i ==> !MarkerAt(s, k, Open)
    requires i > 0
    ensures RemoveSpans(s) == [s[0]] + RemoveSpans(s[1..])
    ensures MarkerAt(s[1..], i - 1, Open) && MarkerAt(s[1..], j - 1, Close)
    ensures forall k :: (i - 1) + |Open| <= k < j - 1 ==> !MarkerAt(s[1..], k, Close)
    ensures forall k :: 0 <= k < i - 1 ==> !MarkerAt(s[1..], k, Open)
  {
    assert !MarkerAt(s, 0, Open);
    MarkerAtTail(s, i - 1, Open);
    MarkerAtTail(s, j - 1, Close);
    forall k | (i - 1) + |Open| <= k < j - 1
      ensures !MarkerAt(s[1..], k, Close)
    {
      MarkerAtTail(s, k, Close);
    }
    forall k | 0 <= k < i - 1
      ensures !MarkerAt(s[1..], k, Open)
    {
      MarkerAtTail(s, k, Open);
    }
  }

  lemma JoinShifted(s: string, i: nat, j: nat, tail: string)
    requires 0 < i <= j && j + |Close| <= |s|
    ensures [s[0]] + (s[1..][..i - 1] + tail) == s[..i] + tail
  {
    assert [s[0]] + s[1..][..i - 1] == s[..i];
  }

  /** Leftmost, lazy matching: if `i` is the first opening marker and `j` the first
      closing marker after it, everything before `i` is kept verbatim, `s[i..j+8]`
      is dropped and the rest is processed on its own. */
  lemma {:induction false} FirstSpanRemoved(s: string, i: nat, j: nat)
    requires MarkerAt(s, i, Open) && i + |Open| <= j && MarkerAt(s, j, Close)
    requires forall k :: i + |Open| <= k < j ==> !MarkerAt(s, k, Close)
    requires forall k :: 0 <= k < i ==> !MarkerAt(s, k, Open)
    ensures RemoveSpans(s) == s[..i] + RemoveSpans(s[j + |Close|..])
    decreases i
  {
    if i == 0 {
      FirstSpanAtStart(s, j);
    } else {
      FirstSpanShift(s, i, j);
      var t := s[1..];
      FirstSpanRemoved(t, i - 1, j - 1);
      JoinShifted(s, i, j, RemoveSpans(s[j + |Close|..]));
    }
  }

  /** The opening marker of `pre + open + body + close + rest` is the first one,
      and its first closing marker is `close`. */
  lemma SpanPremises(pre: string, open: string, body: string, close: string, rest: string)
    requires |open| == |Open| && MarkerAt(open, 0, Open)
    requires |close| == |Close| && MarkerAt(close, 0, Close)
    requires forall k :: 0 <= k < |pre| ==> !MarkerAt(pre + open, k, Open)
    requires forall k :: 0 <= k < |body| ==> !MarkerAt(body + close, k, Close)
    ensures var s, i, j := pre + open + body + close + rest, |pre|, |pre| + |Open| + |body|;
      MarkerAt(s, i, Open) && i + |Open| <= j && MarkerAt(s, j, Close)
      && (forall k :: i + |Open| <= k < j ==> !MarkerAt(s, k, Close))
      && (forall k :: 0 <= k < i ==> !MarkerAt(s, k, Open))
  {
    var s := pre + open + body + close + rest;
    var i, j := |pre|, |pre| + |Open| + |body|;
    OpenAfterPre(pre, open, body + close + rest);
    assert s == pre + open + (body + close + rest);
    CloseAfterBody(pre + open, body, close, rest);
    assert s == (pre + open) + (body + close) + rest;
  }

  lemma OpenAfterPre(pre: string, open: string, tail: string)
    requires |open| == |Open| && MarkerAt(open, 0, Open)
    requires forall k :: 0 <= k < |pre| ==> !MarkerAt(pre + open, k, Open)
    ensures MarkerAt(pre + open + tail, |pre|, Open)
    ensures forall k :: 0 <= k < |pre| ==> !MarkerAt(pre + open + tail, k, Open)
  {
    MarkerAtInfix(pre, open, tail, 0, Open);
    forall k | 0 <= k < |pre| ensures !MarkerAt(pre + open + tail, k, Open) {
      assert pre + open + tail == [] + (pre + open) + tail;
      MarkerAtInfix([], pre + open, tail, k, Open);
    }
  }

  lemma CloseAfterBody(head: string, body: string, close: string, rest: string)
    requires |close| == |Close| && MarkerAt(close, 0, Close)
    requires forall k :: 0 <= k < |body| ==> !MarkerAt(body + close, k, Close)
    ensures MarkerAt(head + body + close + rest, |head| + |body|, Close)
    ensures forall k :: |head| <= k < |head| + |body| ==> !MarkerAt(head + body + close + rest, k, Close)
  {
    var s := head + body + close + rest;
    assert s == (head + body) + close + rest;
    MarkerAtInfix(head + body, close, rest, 0, Close);
    var mid := body + close;
    assert s == head + mid + rest;
    forall k | |head| <= k < |head| + |body| ensures !MarkerAt(s, k, Close) {
      MarkerAtInfix(head, mid, rest, k - |head|, Close);
    }
  }

  /** A reply `pre + <think>body</think> + rest`, with no opening marker starting
      in `pre` and no closing marker starting in `body`, loses exactly that span,
      whatever the case of the markers. */
  lemma SpanRemoved(pre: string, open: string, body: string, close: string, rest: string)
    requires |open| == |Open| && MarkerAt(open, 0, Open)
    requires |close| == |Close| && MarkerAt(close, 0, Close)
    requires forall k :: 0 <= k < |pre| ==> !MarkerAt(pre + open, k, Open)
    requires forall k :: 0 <= k < |body| ==> !MarkerAt(body + close, k, Close)
    ensures RemoveSpans(pre + open + body + close + rest) == pre + RemoveSpans(rest)
  {
    var s := pre + open + body + close + rest;
    var i, j := |pre|, |pre| + |Open| + |body|;
    SpanPremises(pre, open, body, close, rest);
    FirstSpanRemoved(s, i, j);
    assert s[..i] == pre;
    assert s[j + |Close|..] == rest;
  }

  lemma NoLtUnchanged(s: string)
    requires '<' !in s
    ensures RemoveSpans(s) == s
  {
    NoLtNoMarker(s, Open);
    NoOpenUnchanged(s);
  }

  lemma PlainPartsHaveNoMarker(pre: string, open: string, body: string, close: string)
    requires '<' !in pre && '<' !in body
    ensures forall k :: 0 <= k < |pre| ==> !MarkerAt(pre + open, k, Open)
    ensures forall k :: 0 <= k < |body| ==> !MarkerAt(body + close, k, Close)
  {
    forall k | 0 <= k < |pre| ensures !MarkerAt(pre + open, k, Open) {
      assert (pre + open)[k] == pre[k];
      NotMarkerAt(pre + open, k, Open, 0);
    }
    forall k | 0 <= k < |body| ensures !MarkerAt(body + close, k, Close) {
      assert (body + close)[k] == body[k];
      NotMarkerAt(body + close, k, Close, 0);
    }
  }

  /** `strip_think` of a reply whose span removal is known and already trimmed. */
  lemma StripThinkOf(reply: string, r: string)
    requires RemoveSpans(reply) == r && Trimmed(r)
    ensures StripThink(Some(reply)) == r
  {
    StripTrimmed(r);
  }

  /** Span removal when the text around the span holds no '<' at all. */
  lemma PlainSpanRemoved(pre: string, open: string, body: string, close: string, rest: string)
    requires |open| == |Open| && MarkerAt(open, 0, Open)
    requires |close| == |Close| && MarkerAt(close, 0, Close)
    requires '<' !in pre && '<' !in body && '<' !in rest
    ensures RemoveSpans(pre + open + body + close + rest) == pre + rest
  {
    PlainPartsHaveNoMarker(pre, open, body, close);
    SpanRemoved(pre, open, body, close, rest);
    NoLtUnchanged(rest);
  }

  lemma ExampleSpans(reply: string, open: string, body: string, close: string, rest: string)
    requires open == "<think>" && body == "internal notes" && close == "</think>" && rest == "Hello there."
    requires reply == open + body + close + rest
    ensures RemoveSpans(reply) == rest
  {
    assert reply == [] + open + body + close + rest;
    PlainSpanRemoved([], open, body, close, rest);
  }

  /** The example reply of the chat relay: the marked span and its markers go. */
  lemma StripThinkExample(reply: string)
    requires reply == "<think>" + "internal notes" + "</think>" + "Hello there."
    ensures StripThink(Some(reply)) == "Hello there."
  {
    var open, body, close, rest := "<think>", "internal notes", "</think>", "Hello there.";
    ExampleSpans(reply, open, body, close, rest);
    StripThinkOf(reply, rest);
  }

  lemma CaseMarkers(open: string, close: string)
    requires open == "<THINK>" && close == "</Think>"
    ensures |open| == |Open| && MarkerAt(open, 0, Open)
    ensures |close| == |Close| && MarkerAt(close, 0, Close)
  {
  }

  lemma MultilineSpans(reply: string, pre: string, open: string, body: string, close: string, rest: string)
    requires pre == " " && open == "<THINK>" && body == "a\nb" && close == "</Think>" && rest == "\nOk "
    requires reply == pre + open + body + close + rest
    ensures RemoveSpans(reply) == pre + rest
  {
    CaseMarkers(open, close);
    PlainSpanRemoved(pre, open, body, close, rest);
  }

  lemma MultilineStrip(s: string)
    requires s == " " + "\nOk "
    ensures Strip(s) == "Ok"
  {
    var a, t, b := " \n", "Ok", " ";
    assert s == a + t + b;
    StripPadded(a, t, b);
  }

  /** Markers match in any case, the span may run over several lines, and the
      whitespace left around it is trimmed. */
  lemma StripThinkExampleMultiline(reply: string)
    requires reply == " " + "<THINK>" + "a\nb" + "</Think>" + "\nOk "
    ensures StripThink(Some(reply)) == "Ok"
  {
    var pre, open, body, close, rest := " ", "<THINK>", "a\nb", "</Think>", "\nOk ";
    MultilineSpans(reply, pre, open, body, close, rest);
    MultilineStrip(pre + rest);
  }

  /** A marker starting inside `s` needs '<' followed by a character that folds to
      the marker's second character; if no '<' in `s` is so followed, none of the
      positions of `s` starts a marker, whatever text comes after it. */
  lemma NoMarkerStartIn(s: string, t: string, m: string)
    requires |m| >= 2 && m[0] == '<'
    requires forall k :: 0 <= k < |s| && s[k] == '<' ==> k + 1 < |s| && !FoldsTo(s[k + 1], m[1])
    ensures forall k :: 0 <= k < |s| ==> !MarkerAt(s + t, k, m)
  {
    forall k | 0 <= k < |s| ensures !MarkerAt(s + t, k, m) {
      assert (s + t)[k] == s[k];
      if s[k] == '<' {
        assert (s + t)[k + 1] == s[k + 1];
        NotMarkerAt(s + t, k, m, 1);
      } else {
        NotMarkerAt(s + t, k, m, 0);
      }
    }
  }

  lemma NoMarkerIn(s: string, m: string)
    requires |m| >= 2 && m[0] == '<'
    requires forall k :: 0 <= k < |s| && s[k] == '<' ==> k + 1 < |s| && !FoldsTo(s[k + 1], m[1])
    ensures forall k: nat :: !MarkerAt(s, k, m)
  {
    NoMarkerStartIn(s, [], m);
    assert s + [] == s;
  }

  lemma NestedParts(body: string, rest: string)
    requires body == "a<think>b" && rest == "c</think>d"
    ensures forall k :: 0 <= k < |body| ==> !MarkerAt(body + Close, k, Close)
    ensures forall k: nat :: !MarkerAt(rest, k, Open)
  {
    NoMarkerStartIn(body, Close, Close);
    NoMarkerIn(rest, Open);
  }

  /** Nesting is not recognised: the lazy match ends at the first closing marker,
      so the outer closing marker and what follows it stay. */
  lemma NestedSpanExample(reply: string)
    requires reply == "<think>a<think>b</think>c</think>d"
    ensures RemoveSpans(reply) == "c</think>d"
  {
    var pre, open, body, close, rest := "", "<think>", "a<think>b", "</think>", "c</think>d";
    assert reply == pre + open + body + close + rest;
    NestedParts(body, rest);
    SpanRemoved(pre, open, body, close, rest);
    NoOpenUnchanged(rest);
  }

  lemma ReformParts(pre: string, rest: string)
    requires pre == "<thi" && rest == "nk></think>"
    ensures forall k :: 0 <= k < |pre| ==> !MarkerAt(pre + Open, k, Open)
    ensures forall k: nat :: !MarkerAt(rest, k, Open)
  {
    var po := pre + Open;
    forall k | 0 <= k < |pre| ensures !MarkerAt(po, k, Open) {
      if k == 0 {
        NotMarkerAt(po, 0, Open, 4);
      } else {
        NotMarkerAt(po, k, Open, 0);
      }
    }
    NoMarkerIn(rest, Open);
  }

  lemma ReformedSpan(pre: string, rest: string)
    requires pre == "<thi" && rest == "nk></think>"
    ensures HasSpan(pre + rest)
  {
    var t := pre + rest;
    assert t[0..7] == "<think>" && t[7..15] == "</think>";
    assert 0 + |Open| <= 7 && MarkerAt(t, 0, Open) && MarkerAt(t, 7, Close);
  }

  lemma ReplyHasSpan(reply: string, pre: string, rest: string)
    requires pre == "<thi" && rest == "nk></think>"
    requires reply == pre + Open + Close + rest
    ensures HasSpan(reply)
  {
    assert reply == pre + Open + (Close + rest);
    MarkerAtInfix(pre, Open, Close + rest, 0, Open);
    assert reply == (pre + Open) + Close + rest;
    MarkerAtInfix(pre + Open, Close, rest, 0, Close);
    assert MarkerAt(Open, 0, Open) && MarkerAt(Close, 0, Close);
    assert 4 + |Open| <= 11 && MarkerAt(reply, 4, Open) && MarkerAt(reply, 11, Close);
  }

  lemma ReformSpans(reply: string, pre: string, rest: string)
    requires pre == "<thi" && rest == "nk></think>"
    requires reply == pre + Open + Close + rest
    ensures RemoveSpans(reply) == pre + rest
  {
    ReformParts(pre, rest);
    assert reply == pre + Open + [] + Close + rest;
    SpanRemoved(pre, Open, [], Close, rest);
    NoOpenUnchanged(rest);
  }

  /** One pass does not make the output free of matches: the text on both sides
      of a removed span can join into a new opening marker. */
  lemma SpanCanReform(reply: string)
    requires reply == "<thi<think></think>nk></think>"
    ensures HasSpan(reply) && HasSpan(RemoveSpans(reply))
  {
    var pre, rest := "<thi", "nk></think>";
    assert reply == pre + Open + Close + rest;
    ReplyHasSpan(reply, pre, rest);
    ReformSpans(reply, pre, rest);
    ReformedSpan(pre, rest);
  }
}
