/** The handler list of one event type, and what `on` and `off` do to it.
    Handlers are compared by their text, as Core.js compares `toString()`. */
module Handlers {
  import opened Values

  /** The handlers of `hs` whose text differs from `text`, in their order. */
  function Others(hs: seq<Handler>, text: string): seq<Handler>
  {
    if hs == [] then []
    else if hs[0].text != text then [hs[0]] + Others(hs[1..], text)
    else Others(hs[1..], text)
  }

  /** How many handlers of `hs` have the text `text`. */
  function Matches(hs: seq<Handler>, text: string): nat
  {
    if hs == [] then 0
    else (if hs[0].text == text then 1 else 0) + Matches(hs[1..], text)
  }

  /** `a` is `b` with some elements left out, the rest in order. */
  predicate SubseqOf(a: seq<Handler>, b: seq<Handler>)
    decreases |b|
  {
    if a == [] then true
    else if b == [] then false
    else (a[0] == b[0] && SubseqOf(a[1..], b[1..])) || SubseqOf(a, b[1..])
  }

  /** The list `on(type, h)` leaves for a type whose list was `hs`: an empty
      list becomes `[h]`; otherwise the loop, whose bound is read once,
      pushes one `h` for every existing handler with a different text. */
  function Subscribe(hs: seq<Handler>, h: Handler): (r: seq<Handler>)
    ensures |r| > 0 && hs <= r
    ensures forall i :: |hs| <= i < |r| ==> r[i] == h
  {
    if hs == [] then [h] else hs + seq(|Others(hs, h.text)|, _ => h)
  }

  /** The list `off(type, h)` leaves when `text` is h's text. `splice(i, 1)`
      shifts the next handler into slot `i` while `i` still advances, so the
      handler right after a removed one is never examined. */
  function Unsubscribe(hs: seq<Handler>, text: string): seq<Handler>
  {
    if hs == [] then []
    else if hs[0].text != text then [hs[0]] + Unsubscribe(hs[1..], text)
    else if |hs| == 1 then []
    else [hs[1]] + Unsubscribe(hs[2..], text)
  }

  // ---------------------------------------------------------------------
  // Counting

  lemma {:induction false} MatchesPlusOthers(hs: seq<Handler>, text: string)
    ensures Matches(hs, text) + |Others(hs, text)| == |hs|
  {
    if hs != [] {
      MatchesPlusOthers(hs[1..], text);
    }
  }

  lemma {:induction false} MatchesAppend(a: seq<Handler>, b: seq<Handler>, text: string)
    ensures Matches(a + b, text) == Matches(a, text) + Matches(b, text)
  {
    if a == [] {
      assert a + b == b;
    } else {
      assert (a + b)[1..] == a[1..] + b;
      MatchesAppend(a[1..], b, text);
    }
  }

  lemma {:induction false} OthersAppend(a: seq<Handler>, b: seq<Handler>, text: string)
    ensures Others(a + b, text) == Others(a, text) + Others(b, text)
  {
    if a == [] {
      assert a + b == b;
    } else {
      assert (a + b)[1..] == a[1..] + b;
      OthersAppend(a[1..], b, text);
    }
  }

  lemma {:induction false} MatchesOfCopies(h: Handler, n: nat)
    ensures Matches(seq(n, _ => h), h.text) == n
  {
    if n > 0 {
      assert seq(n, _ => h)[1..] == seq(n - 1, _ => h);
      MatchesOfCopies(h, n - 1);
    }
  }

  /** No handler has a different text exactly when every handler shares it. */
  lemma {:induction false} OthersEmptyIffAllMatch(hs: seq<Handler>, text: string)
    ensures Others(hs, text) == [] <==> forall i :: 0 <= i < |hs| ==> hs[i].text == text
  {
    if hs != [] {
      OthersEmptyIffAllMatch(hs[1..], text);
      assert forall i :: 1 <= i < |hs| ==> hs[i] == hs[1..][i - 1];
    }
  }

  // ---------------------------------------------------------------------
  // What `on` does to a non-empty list

  /** One copy of `h` is appended per registered handler whose text differs. */
  lemma {:induction false} SubscribeAppendsPerMismatch(hs: seq<Handler>, h: Handler)
    requires hs != []
    ensures |Subscribe(hs, h)| - |hs| == |hs| - Matches(hs, h.text)
  {
    MatchesPlusOthers(hs, h.text);
  }

  /** `on` leaves a non-empty list unchanged exactly when every registered
      handler has the new handler's text. */
  lemma {:induction false} SubscribeUnchangedIffAllShareText(hs: seq<Handler>, h: Handler)
    requires hs != []
    ensures Subscribe(hs, h) == hs <==> forall i :: 0 <= i < |hs| ==> hs[i].text == h.text
  {
    OthersEmptyIffAllMatch(hs, h.text);
    assert |Subscribe(hs, h)| == |hs| + |Others(hs, h.text)|;
  }

  /** After `on(type, h)` on a non-empty list, as many handlers carry h's text
      as the list held before: `on` does not suppress duplicates. */
  lemma {:induction false} SubscribeTextCount(hs: seq<Handler>, h: Handler)
    requires hs != []
    ensures Matches(Subscribe(hs, h), h.text) == |hs|
  {
    var n := |Others(hs, h.text)|;
    MatchesAppend(hs, seq(n, _ => h), h.text);
    MatchesOfCopies(h, n);
    MatchesPlusOthers(hs, h.text);
  }

  // ---------------------------------------------------------------------
  // What `off` does to a list

  /** Every handler with a different text survives `off`, in order, and none is added. */
  lemma {:induction false} UnsubscribeKeepsOthers(hs: seq<Handler>, text: string)
    ensures Others(Unsubscribe(hs, text), text) == Others(hs, text)
  {
    if hs == [] {
    } else if hs[0].text != text {
      UnsubscribeKeepsOthers(hs[1..], text);
    } else if |hs| == 1 {
    } else {
      UnsubscribeKeepsOthers(hs[2..], text);
      assert hs[1..][1..] == hs[2..];
      var rest := Unsubscribe(hs[2..], text);
      assert ([hs[1]] + rest)[1..] == rest;
    }
  }

  /** `off` only removes handlers: its result is a subsequence of the list. */
  lemma {:induction false} UnsubscribeIsSubseq(hs: seq<Handler>, text: string)
    ensures SubseqOf(Unsubscribe(hs, text), hs)
  {
    if hs == [] {
    } else if hs[0].text != text {
      UnsubscribeIsSubseq(hs[1..], text);
      var r := Unsubscribe(hs, text);
      assert r[0] == hs[0] && r[1..] == Unsubscribe(hs[1..], text);
    } else if |hs| == 1 {
    } else {
      UnsubscribeIsSubseq(hs[2..], text);
      var r := Unsubscribe(hs, text);
      assert r[0] == hs[1..][0] && r[1..] == Unsubscribe(hs[2..], text);
      assert hs[1..][1..] == hs[2..];
      assert SubseqOf(r, hs[1..]);
    }
  }

  /** `off` never adds a match, removes at least one when there is one, and so
      shortens the list exactly when a match exists. */
  lemma {:induction false} UnsubscribeRemovesMatch(hs: seq<Handler>, text: string)
    ensures Matches(Unsubscribe(hs, text), text) <= Matches(hs, text)
    ensures Matches(hs, text) > 0 ==> Matches(Unsubscribe(hs, text), text) < Matches(hs, text)
    ensures Matches(hs, text) == 0 ==> Unsubscribe(hs, text) == hs
    ensures |Unsubscribe(hs, text)| < |hs| <==> Matches(hs, text) > 0
  {
    if hs == [] {
    } else if hs[0].text != text {
      UnsubscribeRemovesMatch(hs[1..], text);
      assert [hs[0]] + hs[1..] == hs;
    } else if |hs| == 1 {
    } else {
      UnsubscribeRemovesMatch(hs[2..], text);
      assert hs[1..][1..] == hs[2..];
      var rest := Unsubscribe(hs[2..], text);
      assert ([hs[1]] + rest)[1..] == rest;
    }
    UnsubscribeKeepsOthers(hs, text);
    MatchesPlusOthers(hs, text);
    MatchesPlusOthers(Unsubscribe(hs, text), text);
  }

  lemma {:induction false} UnsubscribeSkipsPrefix(pre: seq<Handler>, rest: seq<Handler>, text: string)
    requires Matches(pre, text) == 0
    ensures Unsubscribe(pre + rest, text) == pre + Unsubscribe(rest, text)
  {
    if pre == [] {
      assert pre + rest == rest;
    } else {
      assert (pre + rest)[1..] == pre[1..] + rest;
      UnsubscribeSkipsPrefix(pre[1..], rest, text);
    }
  }

  /** `off` keeps everything before the first match, removes the first match,
      and keeps the handler right after it without looking at it, even when
      that handler matches too. */
  lemma {:induction false} UnsubscribeFirstMatch(pre: seq<Handler>, x: Handler, post: seq<Handler>, text: string)
    requires Matches(pre, text) == 0 && x.text == text
    ensures Unsubscribe(pre + [x] + post, text)
         == pre + (if post == [] then [] else [post[0]] + Unsubscribe(post[1..], text))
  {
    assert pre + [x] + post == pre + ([x] + post);
    UnsubscribeSkipsPrefix(pre, [x] + post, text);
    assert ([x] + post)[1..] == post;
    if post != [] {
      assert ([x] + post)[2..] == post[1..];
    }
  }

  /** `off` on a list of `n` copies of one handler leaves `n / 2` of them. */
  lemma {:induction false} UnsubscribeCopies(h: Handler, n: nat)
    ensures Unsubscribe(seq(n, _ => h), h.text) == seq(n / 2, _ => h)
  {
    if n >= 2 {
      UnsubscribeCopies(h, n - 2);
      assert seq(n, _ => h)[2..] == seq(n - 2, _ => h);
      assert [h] + seq(n / 2 - 1, _ => h) == seq(n / 2, _ => h);
    }
  }
}
