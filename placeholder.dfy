/**
 * The enrichment rewrite `text.replace(/\{0\}/g, location)`: every occurrence
 * of the literal token `{0}` is replaced, scanning left to right without
 * overlap, by the expansion of the replacement string. As in any JavaScript
 * `replace`, the replacement string may hold `$` patterns (`$$`, `$&`, `` $` ``,
 * `$'`); the regular expression has no capture groups, so every other `$` is
 * copied literally.
 */
module Placeholder {

  /** The token `{0}` starts at index `i` of `s`. */
  predicate TokenAt(s: string, i: int)
  {
    0 <= i && i + 3 <= |s| && s[i] == '{' && s[i + 1] == '0' && s[i + 2] == '}'
  }

  predicate HasToken(s: string)
  {
    exists i :: 0 <= i < |s| && TokenAt(s, i)
  }

  /** GetSubstitution for a match of `{0}` at `pos` in `s`, with no capture groups:
      `$$` gives `$`, `$&` the match, `` $` `` the text before it, `$'` the text after it.
      A replacement without `$` is inserted literally. */
  function Expand(repl: string, s: string, pos: nat): (r: string)
    requires pos + 3 <= |s|
    ensures '$' !in repl ==> r == repl
  {
    if |repl| >= 2 && repl[0] == '$' && repl[1] == '$' then "$" + Expand(repl[2..], s, pos)
    else if |repl| >= 2 && repl[0] == '$' && repl[1] == '&' then s[pos..pos + 3] + Expand(repl[2..], s, pos)
    else if |repl| >= 2 && repl[0] == '$' && repl[1] == '`' then s[..pos] + Expand(repl[2..], s, pos)
    else if |repl| >= 2 && repl[0] == '$' && repl[1] == '\'' then s[pos + 3..] + Expand(repl[2..], s, pos)
    else if |repl| > 0 then [repl[0]] + Expand(repl[1..], s, pos)
    else ""
  }

  /** The replacement of every token of `s` from index `i` on. */
  function ReplaceFrom(s: string, i: nat, repl: string): string
    requires i <= |s|
    decreases |s| - i
  {
    if i == |s| then ""
    else if TokenAt(s, i) then Expand(repl, s, i) + ReplaceFrom(s, i + 3, repl)
    else [s[i]] + ReplaceFrom(s, i + 1, repl)
  }

  /** `s.replace(/\{0\}/g, repl)`. A text without a token is left unchanged whatever
      the replacement, and replacing the token by itself changes nothing. */
  function ReplaceAll(s: string, repl: string): (r: string)
    ensures !HasToken(s) ==> r == s
    ensures repl == "{0}" ==> r == s
  {
    ReplaceFromNoToken(s, 0, repl);
    ReplaceFromByToken(s, 0);
    ReplaceFrom(s, 0, repl)
  }

  /** A character that can never take part in a `{0}` token. */
  predicate Inert(c: char)
  {
    c != '{' && c != '0' && c != '}'
  }

  /** A replacement that is inserted literally and cannot complete a token with its
      neighbours: non-empty, no `$`, no `{`, `0` or `}`. */
  predicate InertText(repl: string)
  {
    |repl| > 0 && forall i :: 0 <= i < |repl| ==> Inert(repl[i]) && repl[i] != '$'
  }

  // ---------------------------------------------------------------------------
  // Lemmas
  // ---------------------------------------------------------------------------

  lemma {:induction false} ReplaceFromNoToken(s: string, i: nat, repl: string)
    requires i <= |s|
    ensures (forall k :: i <= k < |s| ==> !TokenAt(s, k)) ==> ReplaceFrom(s, i, repl) == s[i..]
    decreases |s| - i
  {
    if i < |s| && forall k :: i <= k < |s| ==> !TokenAt(s, k) {
      ReplaceFromNoToken(s, i + 1, repl);
      assert s[i..] == [s[i]] + s[i + 1..];
    }
  }

  lemma {:induction false} ReplaceFromByToken(s: string, i: nat)
    requires i <= |s|
    ensures ReplaceFrom(s, i, "{0}") == s[i..]
    decreases |s| - i
  {
    if i < |s| {
      if TokenAt(s, i) {
        ReplaceFromByToken(s, i + 3);
        assert s[i..] == s[i..i + 3] + s[i + 3..];
      } else {
        ReplaceFromByToken(s, i + 1);
        assert s[i..] == [s[i]] + s[i + 1..];
      }
    }
  }

  /** The first character of a rewritten suffix either comes from the replacement
      (and is inert) or is the unreplaced character `s[i]`. */
  lemma FirstOfReplaceFrom(s: string, i: nat, repl: string)
    requires i <= |s| && InertText(repl)
    ensures var r := ReplaceFrom(s, i, repl);
            |r| > 0 ==> Inert(r[0]) || (i < |s| && !TokenAt(s, i) && r[0] == s[i])
  {
    if i < |s| && TokenAt(s, i) {
    }
  }

  /** Inert text in front of a token-free text cannot complete a token. */
  lemma NoTokenAfterInert(a: string, b: string)
    requires InertText(a) && !HasToken(b)
    ensures !HasToken(a + b)
  {
    var r := a + b;
    forall k | 0 <= k < |r| ensures !TokenAt(r, k) {
      if k < |a| {
        assert r[k] == a[k];
      } else {
        assert !TokenAt(b, k - |a|);
        if k + 3 <= |r| {
          assert r[k..k + 3] == b[k - |a|..k - |a| + 3];
        }
      }
    }
  }

  /** A character copied because no token starts there cannot start a token in the
      result: its two successors would have to be `0` and `}`, which are not inert,
      so both would be copied from `s`, making `s[i..i + 3]` a token. */
  lemma NoTokenAfterCopiedChar(s: string, i: nat, repl: string)
    requires i < |s| && !TokenAt(s, i) && InertText(repl)
    requires !HasToken(ReplaceFrom(s, i + 1, repl))
    ensures !HasToken(ReplaceFrom(s, i, repl))
  {
    var r := ReplaceFrom(s, i, repl);
    var rest := ReplaceFrom(s, i + 1, repl);
    FirstOfReplaceFrom(s, i + 1, repl);
    if i + 1 < |s| && !TokenAt(s, i + 1) {
      assert rest == [s[i + 1]] + ReplaceFrom(s, i + 2, repl);
      FirstOfReplaceFrom(s, i + 2, repl);
    }
    assert r == [s[i]] + rest;
    forall k | 0 <= k < |r| ensures !TokenAt(r, k) {
      if k > 0 {
        assert !TokenAt(rest, k - 1);
      }
    }
  }

  lemma {:induction false} NoTokenAfterReplaceFrom(s: string, i: nat, repl: string)
    requires i <= |s| && InertText(repl)
    ensures !HasToken(ReplaceFrom(s, i, repl))
    decreases |s| - i
  {
    if i < |s| && TokenAt(s, i) {
      NoTokenAfterReplaceFrom(s, i + 3, repl);
      assert ReplaceFrom(s, i, repl) == repl + ReplaceFrom(s, i + 3, repl);
      NoTokenAfterInert(repl, ReplaceFrom(s, i + 3, repl));
    } else if i < |s| {
      NoTokenAfterReplaceFrom(s, i + 1, repl);
      NoTokenAfterCopiedChar(s, i, repl);
    }
  }

  /** With a replacement that is non-empty and free of `$`, `{`, `0` and `}`, no `{0}`
      token is left in the result. */
  lemma ReplaceAllLeavesNoToken(s: string, repl: string)
    requires InertText(repl)
    ensures !HasToken(ReplaceAll(s, repl))
  {
    NoTokenAfterReplaceFrom(s, 0, repl);
  }

  lemma {:induction false} ReplaceFromPlainStretch(s: string, i: nat, j: nat, repl: string)
    requires i <= j <= |s|
    requires forall k :: i <= k < j ==> !TokenAt(s, k)
    ensures ReplaceFrom(s, i, repl) == s[i..j] + ReplaceFrom(s, j, repl)
    decreases j - i
  {
    if i < j {
      assert !TokenAt(s, i);
      assert ReplaceFrom(s, i, repl) == [s[i]] + ReplaceFrom(s, i + 1, repl);
      ReplaceFromPlainStretch(s, i + 1, j, repl);
      assert s[i..j] == [s[i]] + s[i + 1..j];
    }
  }

  /** No token starts inside a prefix without `{`. */
  lemma NoTokenInPlainPrefix(p: string, x: string)
    requires '{' !in p
    ensures forall k :: 0 <= k < |p| ==> !TokenAt(p + x, k)
  {
    forall k | 0 <= k < |p| ensures !TokenAt(p + x, k) {
      assert (p + x)[k] == p[k];
    }
  }

  /** A suffix without a token holds none in any longer text either. */
  lemma NoTokenInSuffix(a: string, q: string)
    requires !HasToken(q)
    ensures forall k :: |a| <= k < |a + q| ==> !TokenAt(a + q, k)
  {
    var s := a + q;
    forall k | |a| <= k < |s| ensures !TokenAt(s, k) {
      assert !TokenAt(q, k - |a|);
      if k + 3 <= |s| {
        assert s[k..k + 3] == q[k - |a|..k - |a| + 3];
      }
    }
  }

  /** A token followed by a token-free rest: the token is replaced, the rest kept. */
  lemma ReplaceFromLastToken(s: string, j: nat, repl: string)
    requires j + 3 <= |s| && TokenAt(s, j) && '$' !in repl
    requires forall k :: j + 3 <= k < |s| ==> !TokenAt(s, k)
    ensures ReplaceFrom(s, j, repl) == repl + s[j + 3..]
  {
    ReplaceFromNoToken(s, j + 3, repl);
  }

  /** A text with a single token, and no `{` before it, becomes the text with the
      token replaced by the (literal) replacement. */
  lemma ReplaceSingleToken(p: string, q: string, repl: string)
    requires '{' !in p && !HasToken(q) && '$' !in repl
    ensures ReplaceAll(p + "{0}" + q, repl) == p + repl + q
  {
    var a := p + "{0}";
    var s := a + q;
    var j := |p|;
    assert s == p + ("{0}" + q);
    NoTokenInPlainPrefix(p, "{0}" + q);
    ReplaceFromPlainStretch(s, 0, j, repl);
    assert s[..j] == p;
    assert TokenAt(s, j);
    NoTokenInSuffix(a, q);
    ReplaceFromLastToken(s, j, repl);
    assert s[j + 3..] == q;
    assert p + (repl + q) == p + repl + q;
  }

  /** Merely excluding `{0}` from the replacement is not enough: deleting the inner
      token of `{{0}0}` joins its neighbours into a new one. */
  lemma DeletionCanFormToken()
    ensures ReplaceAll("{{0}0}", "") == "{0}"
    ensures HasToken(ReplaceAll("{{0}0}", ""))
  {
    var s := "{{0}0}";
    assert !TokenAt(s, 0) && TokenAt(s, 1) && !TokenAt(s, 4) && !TokenAt(s, 5);
    assert ReplaceFrom(s, 6, "") == "";
    assert ReplaceFrom(s, 5, "") == "}";
    assert ReplaceFrom(s, 4, "") == "0}";
    assert ReplaceFrom(s, 1, "") == "0}";
    assert ReplaceAll(s, "") == "{0}";
    assert TokenAt("{0}", 0);
  }

  /** The `$` patterns of the replacement see the text around the match. */
  lemma DollarPatternsExample()
    ensures ReplaceAll("x{0}y", "$'$`$$") == "xyx$y"
  {
    var s := "x{0}y";
    var e := "$'$`$$";
    assert !TokenAt(s, 0) && TokenAt(s, 1) && !TokenAt(s, 4);
    assert s[..1] == "x" && s[4..] == "y";
    assert Expand(e[4..], s, 1) == "$";
    assert Expand(e[2..], s, 1) == "x$";
    assert Expand(e, s, 1) == "yx$";
    assert ReplaceFrom(s, 4, e) == "y";
  }
}
