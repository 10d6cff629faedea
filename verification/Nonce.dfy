// withNonce of internal/analytics/analytics.go: a nonce on every script tag of a pasted snippet that does
// not already carry one. Text is ASCII, as far as upper and lower case go.
module Nonce {
  import opened Common

  const OPENING := "<script"
  const ATTRIBUTE := "nonce="

  function LowerChar(c: char): char {
    if 'A' <= c <= 'Z' then (c as int + 32) as char else c
  }

  function Lower(s: string): (l: string)
    ensures |l| == |s| && forall i :: 0 <= i < |s| ==> l[i] == LowerChar(s[i])
  {
    seq(|s|, i requires 0 <= i < |s| => LowerChar(s[i]))
  }

  function EscapeChar(c: char): string {
    if c == '<' then "&lt;" else if c == '>' then "&gt;" else if c == '&' then "&amp;"
    else if c == '"' then "&#34;" else if c == '\'' then "&#39;" else [c]
  }

  /** html.EscapeString */
  function Escape(s: string): (e: string)
    ensures forall c :: c in e ==> c != '<' && c != '>' && c != '"'
  {
    if s == "" then "" else EscapeChar(s[0]) + Escape(s[1..])
  }

  function Attribute(nonce: string): (a: string)
    ensures |a| >= 7 && a[0] == ' ' && a[1..7] == ATTRIBUTE && '<' !in a && '>' !in a
  {
    var a := " nonce=\"" + Escape(nonce) + "\"";
    assert a[1..7] == ATTRIBUTE;
    a
  }

  function Unescape(s: string): string {
    if s == "" then ""
    else if "&lt;" <= s then "<" + Unescape(s[4..])
    else if "&gt;" <= s then ">" + Unescape(s[4..])
    else if "&amp;" <= s then "&" + Unescape(s[5..])
    else if "&#34;" <= s then "\"" + Unescape(s[5..])
    else if "&#39;" <= s then "'" + Unescape(s[5..])
    else [s[0]] + Unescape(s[1..])
  }

  lemma UnescapeChar(c: char, rest: string)
    ensures Unescape(EscapeChar(c) + rest) == [c] + Unescape(rest)
  {
    var s, e := EscapeChar(c) + rest, EscapeChar(c);
    assert s[|e|..] == rest && s[..|e|] == e;
    if |e| == 1 {
      assert s[0] == c != '&';
    } else {
      assert s[1] == e[1] && s[2] == e[2] && s[3] == e[3] && e <= s;
    }
  }

  /** The attribute carries the nonce: between quotes it holds a text without quotes that reads as the nonce. */
  lemma {:induction false} EscapedIsReadable(s: string)
    ensures Unescape(Escape(s)) == s
  {
    if s != "" {
      EscapedIsReadable(s[1..]);
      UnescapeChar(s[0], Escape(s[1..]));
      assert s == [s[0]] + s[1..];
    }
  }

  lemma AttributeCarries(nonce: string) returns (value: string)
    ensures Attribute(nonce) == " nonce=\"" + value + "\"" && '"' !in value && Unescape(value) == nonce
  {
    value := Escape(nonce);
    EscapedIsReadable(nonce);
  }

  // ------------------------------------------------------------------ searching

  predicate At(s: string, pattern: string, k: nat) {
    k + |pattern| <= |s| && Lower(s[k..k + |pattern|]) == pattern
  }

  /** strings.Index over the lower-cased text. */
  function Index(s: string, pattern: string): (i: Option<nat>)
    ensures i.Some? ==> At(s, pattern, i.value) && forall k :: 0 <= k < i.value ==> !At(s, pattern, k)
    ensures i.None? ==> forall k: nat :: !At(s, pattern, k)
  {
    IndexFrom(s, pattern, 0)
  }

  function IndexFrom(s: string, pattern: string, from: nat): (i: Option<nat>)
    requires from <= |s| && forall k :: 0 <= k < from ==> !At(s, pattern, k)
    ensures i.Some? ==> At(s, pattern, i.value) && forall k :: 0 <= k < i.value ==> !At(s, pattern, k)
    ensures i.None? ==> forall k: nat :: !At(s, pattern, k)
    decreases |s| - from
  {
    if At(s, pattern, from) then Some(from)
    else if from == |s| then None
    else IndexFrom(s, pattern, from + 1)
  }

  /** The text up to the first '>' has a nonce in it. */
  ghost predicate HasNonce(tag: string) {
    exists m: nat :: NonceAt(tag, m)
  }

  predicate NonceAt(tag: string, m: nat) {
    At(tag, ATTRIBUTE, m) && '>' !in tag[..m]
  }

  function Cut(tag: string): string {
    var close := Index(tag, ">");
    if close.Some? then tag[..close.value] else tag
  }

  lemma AtIndex(s: string, pattern: string, k: nat, j: nat)
    requires At(s, pattern, k) && j < |pattern|
    ensures k + j < |s| && LowerChar(s[k + j]) == pattern[j]
  {
    assert s[k..k + |pattern|][j] == s[k + j];
  }

  lemma CutAt(tag: string)
    ensures Cut(tag) <= tag && '>' !in Cut(tag)
    ensures |Cut(tag)| < |tag| ==> tag[|Cut(tag)|] == '>'
  {
    var close := Index(tag, ">");
    forall k | 0 <= k < |tag| ensures At(tag, ">", k) <==> tag[k] == '>' {
      assert tag[k..k + 1] == [tag[k]];
    }
  }

  /** Cutting the tag at its end and searching it, as the code does, finds exactly that. */
  lemma TagCheck(tag: string)
    ensures Index(Cut(tag), ATTRIBUTE).Some? <==> HasNonce(tag)
  {
    var cut := Cut(tag);
    CutAt(tag);
    if Index(cut, ATTRIBUTE).Some? {
      var m := Index(cut, ATTRIBUTE).value;
      assert cut[m..m + 6] == tag[m..m + 6] && tag[..m] == cut[..m];
      assert NonceAt(tag, m);
    }
    if HasNonce(tag) {
      var m: nat :| NonceAt(tag, m);
      NoCloseInside(tag, m, |cut|);
      assert cut[m..m + 6] == tag[m..m + 6];
      assert At(cut, ATTRIBUTE, m);
    }
  }

  lemma NoCloseInside(tag: string, m: nat, end: nat)
    requires NonceAt(tag, m) && end <= |tag| && (end < |tag| ==> tag[end] == '>')
    ensures m + 6 <= end
  {
    forall j | 0 <= j < m ensures tag[j] != '>' { assert tag[..m][j] == tag[j]; }
    if m <= end < m + 6 { AtIndex(tag, ATTRIBUTE, m, end - m); }
  }

  // ------------------------------------------------------------------ the rewriting

  ghost function Marked(rest: string, attribute: string): string
    decreases |rest|
  {
    var i := Index(rest, OPENING);
    if i.None? then rest
    else
      var end := i.value + |OPENING|;
      rest[..end] + (if HasNonce(rest[end..]) then "" else attribute) + Marked(rest[end..], attribute)
  }

  lemma MarkedStep(before: string, rest: string, attribute: string)
    requires Index(rest, OPENING).Some?
    ensures var end := Index(rest, OPENING).value + |OPENING|;
            before + Marked(rest, attribute)
            == (if HasNonce(rest[end..]) then before + rest[..end] else before + rest[..end] + attribute) + Marked(rest[end..], attribute)
  {
    var end := Index(rest, OPENING).value + |OPENING|;
    if HasNonce(rest[end..]) {
      assert rest[..end] + "" == rest[..end];
    }
  }

  ghost function WithNonce(snippet: string, nonce: string): string {
    if nonce == "" then snippet else Marked(snippet, Attribute(nonce))
  }

  /** withNonce: the loop over what is left of the snippet. */
  method AddNonce(snippet: string, nonce: string) returns (out: string)
    ensures out == WithNonce(snippet, nonce)
  {
    if nonce == "" || snippet == "" { return snippet; }
    out := "";
    var rest := snippet;
    while true
      invariant out + Marked(rest, Attribute(nonce)) == Marked(snippet, Attribute(nonce))
      decreases |rest|
    {
      var i := Index(rest, OPENING);
      if i.None? { return out + rest; }
      var end := i.value + |OPENING|;
      MarkedStep(out, rest, Attribute(nonce));
      TagCheck(rest[end..]);
      out := out + rest[..end];
      if Index(Cut(rest[end..]), ATTRIBUTE).None? {
        out := out + Attribute(nonce);
      }
      rest := rest[end..];
    }
  }

  // -------------------------------------------------------------- every tag is marked

  ghost predicate AllMarked(s: string) {
    forall k: nat :: At(s, OPENING, k) ==> HasNonce(s[k + |OPENING|..])
  }

  lemma NonceShifts(prefix: string, tag: string)
    requires '>' !in prefix && HasNonce(tag)
    ensures HasNonce(prefix + tag)
  {
    var m: nat :| NonceAt(tag, m);
    var all, n := prefix + tag, |prefix| + m;
    assert all[n..n + 6] == tag[m..m + 6] && all[..n] == prefix + tag[..m];
    assert NonceAt(all, n);
  }

  /** The opening of a tag cannot end inside the name of the attribute: no letter of it is a t. */
  lemma NoOverlap(s: string, m: nat, i: nat)
    requires At(s, ATTRIBUTE, m) && At(s, OPENING, i)
    ensures m + 6 <= i + 7 || i + 7 <= m
  {
    var last := OPENING[6];
    assert forall j :: 0 <= j < 6 ==> ATTRIBUTE[j] != last;
    AtIndex(s, OPENING, i, 6);
    if m < i + 7 < m + 6 { AtIndex(s, ATTRIBUTE, m, i + 6 - m); }
  }

  /** A nonce before `end` is seen in every text that agrees up to there. */
  lemma NonceBefore(tag: string, out: string, m: nat, end: nat)
    requires NonceAt(tag, m) && m + 6 <= end <= |tag| && end <= |out| && out[..end] == tag[..end]
    ensures NonceAt(out, m)
  {
    assert out[m..m + 6] == out[..end][m..m + 6] == tag[m..m + 6];
    assert out[..m] == out[..end][..m] == tag[..m];
  }

  /** A nonce after `end` is seen in what follows `end`, and no tag ends before it. */
  lemma NonceBehind(tag: string, m: nat, end: nat)
    requires NonceAt(tag, m) && end <= m
    ensures NonceAt(tag[end..], m - end) && '>' !in tag[..end]
  {
    var rest, n := tag[end..], m - end;
    assert rest[n..n + 6] == tag[m..m + 6];
    forall c | c in rest[..n] ensures c in tag[..m] {
      var k :| 0 <= k < n && rest[..n][k] == c;
      assert tag[..m][end + k] == c;
    }
    forall c | c in tag[..end] ensures c in tag[..m] {
      var k :| 0 <= k < end && tag[..end][k] == c;
      assert tag[..m][k] == c;
    }
  }

  /** Marking later tags cannot take a nonce away from an earlier one. */
  lemma {:induction false} MarkingKeepsNonce(tag: string, attribute: string, m: nat)
    requires '>' !in attribute && NonceAt(tag, m)
    ensures HasNonce(Marked(tag, attribute))
    decreases |tag|
  {
    var i, out := Index(tag, OPENING), Marked(tag, attribute);
    if i.None? {
      assert NonceAt(out, m);
    } else {
      var end := i.value + |OPENING|;
      var rest := Marked(tag[end..], attribute);
      var middle := if HasNonce(tag[end..]) then "" else attribute;
      if m + 6 <= end {
        Prefix(tag[..end], middle, rest);
        NonceBefore(tag, out, m, end);
      } else {
        NoOverlap(tag, m, i.value);
        NonceBehind(tag, m, end);
        MarkingKeepsNonce(tag[end..], attribute, m - end);
        NonceShifts(tag[..end] + middle, rest);
      }
    }
  }

  lemma MarkingKeepsTag(tag: string, attribute: string)
    requires '>' !in attribute && HasNonce(tag)
    ensures HasNonce(Marked(tag, attribute))
  {
    var m: nat :| NonceAt(tag, m);
    MarkingKeepsNonce(tag, attribute, m);
  }

  lemma Prefix(a: string, b: string, c: string)
    ensures |a| <= |a + b + c| && (a + b + c)[..|a|] == a
  {
  }

  lemma AttributeIsNonce(attribute: string, rest: string)
    requires |attribute| >= 7 && attribute[0] == ' ' && attribute[1..7] == ATTRIBUTE
    ensures HasNonce(attribute + rest)
  {
    var all := attribute + rest;
    assert all[1..7] == ATTRIBUTE && Lower(ATTRIBUTE) == ATTRIBUTE && all[..1] == " ";
    assert NonceAt(all, 1);
  }

  lemma OpensWithBracket(s: string, k: nat)
    ensures At(s, OPENING, k) ==> s[k] == '<'
  {
    if At(s, OPENING, k) { AtIndex(s, OPENING, k, 0); }
  }

  /** Marking opens no tag: not before the first opening, not inside it, and not in the attribute. */
  lemma NoOtherOpening(s: string, i: nat, middle: string, rest: string, k: nat)
    requires Index(s, OPENING) == Some(i) && '<' !in middle && k < i + 7 + |middle| && k != i
    ensures !At(s[..i + 7] + middle + rest, OPENING, k)
  {
    var all, opening := s[..i + 7] + middle + rest, OPENING;
    OpensWithBracket(all, k);
    assert forall j :: 1 <= j < 7 ==> opening[j] != '<';
    if k < i {
      assert !At(s, OPENING, k);
      assert all[k..k + 7] == s[k..k + 7];
    } else if k < i + 7 {
      AtIndex(s, OPENING, i, k - i);
      assert all[k] == s[k];
    } else {
      assert all[k] == middle[k - (i + 7)];
    }
  }

  /** Where a tag can open in a marked text: at the first opening, or in what was marked after it. */
  lemma OpeningsOf(s: string, i: nat, middle: string, rest: string, k: nat)
    requires Index(s, OPENING) == Some(i) && '<' !in middle && At(s[..i + 7] + middle + rest, OPENING, k)
    ensures k == i || (k >= i + 7 + |middle| && At(rest, OPENING, k - (i + 7 + |middle|)))
  {
    var all := s[..i + 7] + middle + rest;
    if k >= i + 7 + |middle| {
      var n := k - (i + 7 + |middle|);
      assert all[k..k + 7] == rest[n..n + 7];
    } else if k != i {
      NoOtherOpening(s, i, middle, rest, k);
    }
  }

  /** The tag that begins a text has a nonce once it is marked. */
  lemma FirstTagMarked(tag: string, attribute: string)
    requires |attribute| >= 7 && attribute[0] == ' ' && attribute[1..7] == ATTRIBUTE && '>' !in attribute
    ensures HasNonce((if HasNonce(tag) then "" else attribute) + Marked(tag, attribute))
  {
    var rest := Marked(tag, attribute);
    if HasNonce(tag) {
      MarkingKeepsTag(tag, attribute);
      assert "" + rest == rest;
    } else {
      AttributeIsNonce(attribute, rest);
    }
  }

  /** What follows an opening of a text put together from a marked rest. */
  lemma TagsOf(s: string, i: nat, middle: string, rest: string, k: nat)
    requires Index(s, OPENING) == Some(i) && '<' !in middle && HasNonce(middle + rest) && AllMarked(rest)
    requires At(s[..i + 7] + middle + rest, OPENING, k)
    ensures HasNonce((s[..i + 7] + middle + rest)[k + 7..])
  {
    var out := s[..i + 7] + middle + rest;
    OpeningsOf(s, i, middle, rest, k);
    if k == i {
      assert out[k + 7..] == middle + rest;
    } else {
      var n := k - (i + 7 + |middle|);
      assert out[k + 7..] == rest[n + 7..];
    }
  }

  /** Every script tag of the result has a nonce. */
  lemma {:induction false} EveryTagMarked(s: string, attribute: string)
    requires |attribute| >= 7 && attribute[0] == ' ' && attribute[1..7] == ATTRIBUTE && '<' !in attribute && '>' !in attribute
    ensures AllMarked(Marked(s, attribute))
    decreases |s|
  {
    var i := Index(s, OPENING);
    if i.Some? {
      var tag := s[i.value + 7..];
      var middle := if HasNonce(tag) then "" else attribute;
      EveryTagMarked(tag, attribute);
      FirstTagMarked(tag, attribute);
      var out := s[..i.value + 7] + middle + Marked(tag, attribute);
      forall k: nat | At(out, OPENING, k) ensures HasNonce(out[k + 7..]) {
        TagsOf(s, i.value, middle, Marked(tag, attribute), k);
      }
    }
  }

  lemma {:induction false} MarkedIsStable(s: string, attribute: string)
    requires AllMarked(s)
    ensures Marked(s, attribute) == s
    decreases |s|
  {
    var i := Index(s, OPENING);
    if i.Some? {
      var end := i.value + 7;
      var rest := s[end..];
      forall k: nat | At(rest, OPENING, k) ensures HasNonce(rest[k + 7..]) {
        assert s[end + k..end + k + 7] == rest[k..k + 7];
        assert At(s, OPENING, end + k) && s[end + k + 7..] == rest[k + 7..];
      }
      MarkedIsStable(rest, attribute);
      assert s == s[..end] + "" + rest;
    }
  }

  /** With a nonce, every script tag of the result carries one, and doing it again -- with this nonce or
      any other -- changes nothing. */
  lemma NonceEverywhereOnce(snippet: string, nonce: string, again: string)
    requires nonce != ""
    ensures AllMarked(WithNonce(snippet, nonce))
    ensures WithNonce(WithNonce(snippet, nonce), again) == WithNonce(snippet, nonce)
  {
    EveryTagMarked(snippet, Attribute(nonce));
    if again != "" { MarkedIsStable(WithNonce(snippet, nonce), Attribute(again)); }
  }

  // ------------------------------------------------------------------ only insertions

  function Joined(pieces: seq<string>, separator: string): string {
    if |pieces| == 0 then ""
    else if |pieces| == 1 then pieces[0]
    else pieces[0] + separator + Joined(pieces[1..], separator)
  }

  predicate EndsOpening(piece: string) {
    |piece| >= 7 && At(piece, OPENING, |piece| - 7)
  }

  lemma JoinedFirst(head: string, pieces: seq<string>, separator: string)
    requires pieces != []
    ensures Joined([head + pieces[0]] + pieces[1..], separator) == head + Joined(pieces, separator)
    ensures Joined([head] + pieces, separator) == head + separator + Joined(pieces, separator)
  {
    var glued := [head + pieces[0]] + pieces[1..];
    assert glued[1..] == pieces[1..];
    assert ([head] + pieces)[1..] == pieces;
    if |pieces| > 1 {
      assert head + (pieces[0] + separator + Joined(pieces[1..], separator)) == head + pieces[0] + separator + Joined(pieces[1..], separator);
    }
  }

  lemma GluedEnds(head: string, piece: string)
    requires EndsOpening(piece)
    ensures EndsOpening(head + piece)
  {
    var all, k := head + piece, |head| + |piece| - 7;
    assert all[k..k + 7] == piece[|piece| - 7..];
    assert piece[|piece| - 7..] == piece[|piece| - 7..|piece| - 7 + 7];
  }

  ghost predicate CutAtOpenings(pieces: seq<string>) {
    pieces != [] && forall i :: 0 <= i < |pieces| - 1 ==> EndsOpening(pieces[i])
  }

  lemma CutsStay(head: string, rest: seq<string>)
    requires CutAtOpenings(rest)
    ensures CutAtOpenings([head + rest[0]] + rest[1..])
    ensures EndsOpening(head) ==> CutAtOpenings([head] + rest)
  {
    if |rest| > 1 { GluedEnds(head, rest[0]); }
  }

  /** Nothing but the attribute is added: the result is the snippet cut after some of its tag openings and
      joined by the attribute, so that taking the attributes out again -- joining with nothing -- gives the
      snippet back, whatever it contains. */
  lemma {:induction false} OnlyInserts(s: string, attribute: string) returns (pieces: seq<string>)
    ensures CutAtOpenings(pieces) && Joined(pieces, "") == s && Joined(pieces, attribute) == Marked(s, attribute)
    decreases |s|
  {
    var i := Index(s, OPENING);
    if i.None? {
      pieces := [s];
    } else {
      var end := i.value + 7;
      var head := s[..end];
      var rest := OnlyInserts(s[end..], attribute);
      JoinedFirst(head, rest, "");
      JoinedFirst(head, rest, attribute);
      assert head[i.value..i.value + 7] == s[i.value..i.value + 7];
      CutsStay(head, rest);
      assert s == head + s[end..] && head + "" == head;
      pieces := if HasNonce(s[end..]) then [head + rest[0]] + rest[1..] else [head] + rest;
    }
  }

  // ------------------------------------------------------------------------- erasing

  /** Every occurrence of the attribute removed, from left to right. */
  function Erased(s: string, attribute: string): string
    requires attribute != ""
    decreases |s|
  {
    if s == "" then ""
    else if attribute <= s then Erased(s[|attribute|..], attribute)
    else [s[0]] + Erased(s[1..], attribute)
  }

  ghost predicate Free(s: string, attribute: string) {
    forall k :: 0 <= k <= |s| ==> !(attribute <= s[k..])
  }

  /** Text that cannot be the start of the attribute passes through. */
  lemma {:induction false} EraseSkips(text: string, rest: string, attribute: string)
    requires attribute != ""
    requires forall k :: 0 <= k < |text| ==> !(attribute <= text[k..] + rest)
    ensures Erased(text + rest, attribute) == text + Erased(rest, attribute)
  {
    if text == "" {
      assert text + rest == rest;
    } else {
      assert text[0..] == text;
      assert (text + rest)[1..] == text[1..] + rest;
      forall k | 0 <= k < |text| - 1 ensures !(attribute <= text[1..][k..] + rest) {
        assert text[1..][k..] == text[k + 1..];
      }
      EraseSkips(text[1..], rest, attribute);
    }
  }

  /** Before an opening ends, the attribute occurs only if it occurs in the text itself. */
  lemma NotAcrossOpening(s: string, i: nat, more: string, attribute: string, k: nat)
    requires Free(s, attribute) && At(s, OPENING, i) && '<' !in attribute && attribute != "" && attribute[0] == ' ' && k < i + 7
    ensures !(attribute <= s[..i + 7][k..] + more)
  {
    var text, opening := s[..i + 7][k..] + more, OPENING;
    if k >= i {
      assert forall j :: 0 <= j < 7 ==> opening[j] != ' ';
      AtIndex(s, OPENING, i, k - i);
      assert text[0] == s[k];
    } else {
      AtIndex(s, OPENING, i, 0);
      assert text[i - k] == s[i] == '<';
      if k + |attribute| <= i {
        assert text[..|attribute|] == s[k..][..|attribute|];
      }
    }
  }

  lemma EraseOne(head: string, middle: string, rest: string, attribute: string)
    requires attribute != "" && (middle == "" || middle == attribute)
    requires forall k :: 0 <= k < |head| ==> !(attribute <= head[k..] + (middle + rest))
    ensures Erased(head + middle + rest, attribute) == head + Erased(rest, attribute)
  {
    EraseSkips(head, middle + rest, attribute);
    assert head + middle + rest == head + (middle + rest);
    if middle == "" { assert middle + rest == rest; } else { assert (middle + rest)[|attribute|..] == rest; }
  }

  lemma FreeAfter(s: string, end: nat, attribute: string)
    requires Free(s, attribute) && end <= |s|
    ensures Free(s[end..], attribute)
  {
    forall k | 0 <= k <= |s[end..]| ensures !(attribute <= s[end..][k..]) { assert s[end..][k..] == s[end + k..]; }
  }

  /** If the attribute does not occur in the snippet -- and a nonce is fresh -- erasing it gives the snippet back. */
  lemma {:induction false} ErasingRestores(s: string, attribute: string)
    requires attribute != "" && attribute[0] == ' ' && '<' !in attribute && Free(s, attribute)
    ensures Erased(Marked(s, attribute), attribute) == s
    decreases |s|
  {
    var i := Index(s, OPENING);
    if i.None? {
      FreeSkips(s, attribute);
    } else {
      var end := i.value + 7;
      FreeAfter(s, end, attribute);
      ErasingRestores(s[end..], attribute);
      ErasingStep(s, i.value, if HasNonce(s[end..]) then "" else attribute, Marked(s[end..], attribute), attribute);
    }
  }

  lemma ErasingStep(s: string, i: nat, middle: string, rest: string, attribute: string)
    requires attribute != "" && attribute[0] == ' ' && '<' !in attribute && Free(s, attribute)
    requires At(s, OPENING, i) && (middle == "" || middle == attribute) && Erased(rest, attribute) == s[i + 7..]
    ensures Erased(s[..i + 7] + middle + rest, attribute) == s
  {
    var head := s[..i + 7];
    forall k | 0 <= k < |head| ensures !(attribute <= head[k..] + (middle + rest)) {
      NotAcrossOpening(s, i, middle + rest, attribute, k);
    }
    EraseOne(head, middle, rest, attribute);
  }

  lemma FreeSkips(s: string, attribute: string)
    requires attribute != "" && Free(s, attribute)
    ensures Erased(s, attribute) == s
  {
    forall k | 0 <= k < |s| ensures !(attribute <= s[k..] + "") { assert s[k..] + "" == s[k..]; }
    EraseSkips(s, "", attribute);
    assert s + "" == s;
  }

  lemma NonceErases(snippet: string, nonce: string)
    requires nonce != "" && Free(snippet, Attribute(nonce))
    ensures Erased(WithNonce(snippet, nonce), Attribute(nonce)) == snippet
  {
    ErasingRestores(snippet, Attribute(nonce));
  }
}
