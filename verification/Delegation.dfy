/**
 The delegation wrapper (app/dynamic_tools_helpers.go): the printer that embeds a source
 thread id and a prompt in a tagged text, and the parser that recovers them.
 */
module Delegation {
  import opened Common

  const PREFIX: string := "<codex_delegation>\n  <source_thread_id>"
  const SEPARATOR: string := "</source_thread_id>\n  <input>"
  const SUFFIX: string := "</input>\n</codex_delegation>"

  /** `strings.NewReplacer` for `&`, `<` and `>`. */
  function Escape(s: string): string {
    if s == [] then [] else Entity(s[0]) + Escape(s[1..])
  }

  function Entity(c: char): string {
    if c == '&' then "&amp;" else if c == '<' then "&lt;" else if c == '>' then "&gt;" else [c]
  }

  /** The inverse replacer: one pass, the first pattern matching at a position is replaced. */
  function Unescape(s: string): string {
    if s == [] then []
    else if "&lt;" <= s then "<" + Unescape(s[4..])
    else if "&gt;" <= s then ">" + Unescape(s[4..])
    else if "&amp;" <= s then "&" + Unescape(s[5..])
    else [s[0]] + Unescape(s[1..])
  }

  /** `strings.Index`: the first position at which `pattern` occurs. */
  function IndexOf(s: string, pattern: string): (i: Option<nat>)
    ensures i.Some? ==> i.value + |pattern| <= |s|
  {
    if pattern <= s then Some(0)
    else if s == [] then None
    else
      var rest := IndexOf(s[1..], pattern);
      if rest.None? then None else Some(rest.value + 1)
  }

  lemma {:induction false} IndexOfFirst(s: string, pattern: string)
    ensures var i := IndexOf(s, pattern);
      && (i.Some? ==> pattern <= s[i.value..] && forall k :: 0 <= k < i.value ==> !(pattern <= s[k..]))
      && (i.None? ==> forall k :: 0 <= k <= |s| ==> !(pattern <= s[k..]))
  {
    if !(pattern <= s) && s != [] {
      IndexOfFirst(s[1..], pattern);
      assert forall k :: 1 <= k <= |s| ==> s[k..] == s[1..][k - 1..];
    }
  }

  predicate HasSuffix(s: string, suffix: string) {
    |s| >= |suffix| && s[|s| - |suffix|..] == suffix
  }

  function DelegatedPrompt(source: string, prompt: string): string {
    Wrap(PREFIX, Escape(source), SEPARATOR, Escape(prompt), SUFFIX)
  }

  /** The two fields of a text between fixed parts: the first separator counts. */
  function Fields(text: string, prefix: string, separator: string, suffix: string): Option<(string, string)> {
    if !(prefix <= text) then None
    else
      var rest := text[|prefix|..];
      var index := IndexOf(rest, separator);
      if index.None? then None else CutAt(rest, index.value, |separator|, suffix)
  }

  function CutAt(rest: string, index: nat, width: nat, suffix: string): Option<(string, string)>
    requires index + width <= |rest|
  {
    var delegated := rest[index + width..];
    if !HasSuffix(delegated, suffix) then None
    else Some((rest[..index], delegated[..|delegated| - |suffix|]))
  }

  /** The two raw fields of a wrapper, before they are unescaped. */
  function SplitWrapper(text: string): Option<(string, string)> {
    Fields(text, PREFIX, SEPARATOR, SUFFIX)
  }

  function ParseDelegatedPrompt(text: string): Option<(string, string)> {
    match SplitWrapper(text)
    case None => None
    case Some((source, delegated)) => Some((Unescape(source), Unescape(delegated)))
  }

  // Escaping

  lemma {:induction false} UnescapeEscape(s: string)
    ensures Unescape(Escape(s)) == s
  {
    if s != [] {
      var c, rest := s[0], Escape(s[1..]);
      UnescapeEscape(s[1..]);
      assert s == [c] + s[1..];
      if c == '&' {
        assert ("&amp;" + rest)[5..] == rest && ("&amp;" + rest)[1] == 'a';
      } else if c == '<' {
        assert ("&lt;" + rest)[4..] == rest && ("&lt;" + rest)[1] == 'l';
      } else if c == '>' {
        assert ("&gt;" + rest)[4..] == rest && ("&gt;" + rest)[1] == 'g';
      } else {
        assert ([c] + rest)[1..] == rest;
      }
    }
  }

  /** Escaping goes character by character: ampersand and angle brackets become entities, the rest stays. */
  lemma EscapeEach(s: string, t: string, c: char)
    ensures Escape(s + t) == Escape(s) + Escape(t) && Escape("") == ""
    ensures Escape([c]) == if c == '&' then "&amp;" else if c == '<' then "&lt;" else if c == '>' then "&gt;" else [c]
  {
    EscapeAppend(s, t);
  }

  lemma {:induction false} EscapeAppend(s: string, t: string)
    ensures Escape(s + t) == Escape(s) + Escape(t)
  {
    hide Entity;
    if s == [] {
      assert s + t == t;
    } else {
      EscapeAppend(s[1..], t);
      assert (s + t)[1..] == s[1..] + t && (s + t)[0] == s[0];
    }
  }

  /** Unescaping replaces the three entities from left to right and keeps every other character. */
  lemma UnescapeEach(s: string, c: char)
    ensures Unescape("") == "" && Unescape("&lt;" + s) == "<" + Unescape(s)
    ensures Unescape("&gt;" + s) == ">" + Unescape(s) && Unescape("&amp;" + s) == "&" + Unescape(s)
    ensures !("&lt;" <= [c] + s) && !("&gt;" <= [c] + s) && !("&amp;" <= [c] + s) ==> Unescape([c] + s) == [c] + Unescape(s)
  {
    var lt, gt, amp := "&lt;" + s, "&gt;" + s, "&amp;" + s;
    assert lt[4..] == s && gt[4..] == s && amp[5..] == s && ([c] + s)[1..] == s;
    assert gt[1] == 'g' && amp[1] == 'a';
  }

  /** The printed wrapper. */
  lemma PrintedText(source: string, prompt: string)
    ensures DelegatedPrompt(source, prompt)
      == "<codex_delegation>\n  <source_thread_id>" + Escape(source) + "</source_thread_id>\n  <input>" + Escape(prompt)
         + "</input>\n</codex_delegation>"
  {
    hide Escape;
    Joined(PREFIX, Escape(source), SEPARATOR, Escape(prompt), SUFFIX);
  }

  lemma Joined(prefix: string, a: string, separator: string, b: string, suffix: string)
    ensures Wrap(prefix, a, separator, b, suffix) == prefix + a + separator + b + suffix
  {
  }

  lemma {:induction false} EscapeHasNoAngle(s: string)
    ensures '<' !in Escape(s) && '>' !in Escape(s)
  {
    if s != [] {
      EscapeHasNoAngle(s[1..]);
    }
  }

  /** The texts that escaping produces: no bare angle bracket, every `&` starts an entity. */
  predicate Canonical(s: string) {
    if s == [] then true
    else if "&lt;" <= s || "&gt;" <= s then Canonical(s[4..])
    else if "&amp;" <= s then Canonical(s[5..])
    else s[0] != '&' && s[0] != '<' && s[0] != '>' && Canonical(s[1..])
  }

  lemma {:induction false} EscapeUnescape(s: string)
    ensures Canonical(s) ==> Escape(Unescape(s)) == s
    decreases |s|
  {
    if s != [] {
      if "&lt;" <= s || "&gt;" <= s {
        EscapeUnescape(s[4..]);
        assert s == s[..4] + s[4..];
        assert s[..4] == "&lt;" || s[..4] == "&gt;";
      } else if "&amp;" <= s {
        EscapeUnescape(s[5..]);
        assert s == s[..5] + s[5..];
        assert s[..5] == "&amp;";
      } else {
        EscapeUnescape(s[1..]);
        assert s == [s[0]] + s[1..];
      }
    }
  }

  lemma {:induction false} EscapeCanonical(s: string)
    ensures Canonical(Escape(s))
  {
    if s != [] {
      var c, rest := s[0], Escape(s[1..]);
      EscapeCanonical(s[1..]);
      if c == '&' {
        assert ("&amp;" + rest)[5..] == rest && ("&amp;" + rest)[1] == 'a';
      } else if c == '<' {
        assert ("&lt;" + rest)[4..] == rest && ("&lt;" + rest)[1] == 'l';
      } else if c == '>' {
        assert ("&gt;" + rest)[4..] == rest && ("&gt;" + rest)[1] == 'g';
      } else {
        assert Escape(s) == [c] + rest && ([c] + rest)[1..] == rest && ([c] + rest)[0] == c;
      }
    }
  }

  // The wrapper

  function Wrap(prefix: string, a: string, separator: string, b: string, suffix: string): string {
    prefix + (a + (separator + (b + suffix)))
  }

  lemma CutFront(x: string, y: string)
    ensures (x + y)[|x|..] == y && (x + y)[..|x|] == x && x <= x + y
  {
  }

  lemma GlueFront(x: string, s: string)
    requires x <= s
    ensures s == x + s[|x|..]
  {
  }

  lemma CutAtOf(a: string, separator: string, b: string, suffix: string)
    ensures CutAt(a + (separator + (b + suffix)), |a|, |separator|, suffix) == Some((a, b))
  {
    var tail := b + suffix;
    var rest := a + (separator + tail);
    CutFront(a, separator + tail);
    CutFront(separator, tail);
    CutFront(b, suffix);
    assert rest[|a| + |separator|..] == rest[|a|..][|separator|..];
  }

  lemma FieldsOf(prefix: string, separator: string, suffix: string, a: string, b: string)
    requires IndexOf(a + (separator + (b + suffix)), separator) == Some(|a|)
    ensures Fields(Wrap(prefix, a, separator, b, suffix), prefix, separator, suffix) == Some((a, b))
  {
    CutFront(prefix, a + (separator + (b + suffix)));
    CutAtOf(a, separator, b, suffix);
  }

  lemma FieldsGlue(text: string, prefix: string, separator: string, suffix: string)
    requires Fields(text, prefix, separator, suffix).Some?
    ensures var (a, b) := Fields(text, prefix, separator, suffix).value;
      text == Wrap(prefix, a, separator, b, suffix) && IndexOf(a + (separator + (b + suffix)), separator) == Some(|a|)
  {
    GlueFront(prefix, text);
    var rest := text[|prefix|..];
    var index := IndexOf(rest, separator).value;
    IndexOfFirst(rest, separator);
    GlueFront(separator, rest[index..]);
    var delegated := rest[index + |separator|..];
    assert rest[index..][|separator|..] == delegated;
    GlueFront(delegated[..|delegated| - |suffix|], delegated);
    GlueFront(rest[..index], rest);
  }

  /** A text has given fields iff it is put together from them and no separator starts earlier. */
  lemma FieldsIff(text: string, prefix: string, separator: string, suffix: string, a: string, b: string)
    ensures Fields(text, prefix, separator, suffix) == Some((a, b))
      <==> text == Wrap(prefix, a, separator, b, suffix)
           && IndexOf(a + (separator + (b + suffix)), separator) == Some(|a|)
  {
    if Fields(text, prefix, separator, suffix) == Some((a, b)) {
      FieldsGlue(text, prefix, separator, suffix);
    }
    if text == Wrap(prefix, a, separator, b, suffix)
       && IndexOf(a + (separator + (b + suffix)), separator) == Some(|a|) {
      FieldsOf(prefix, separator, suffix, a, b);
    }
  }

  /** A separator is found first at its own place when its first character is not in the text before it. */
  lemma FirstSeparator(a: string, separator: string, tail: string)
    requires separator != [] && separator[0] !in a
    ensures IndexOf(a + (separator + tail), separator) == Some(|a|)
  {
    var rest := a + (separator + tail);
    IndexOfFirst(rest, separator);
    assert rest[|a|..] == separator + tail;
    forall k | 0 <= k < |a| ensures !(separator <= rest[k..]) {
      assert rest[k..][0] == a[k] && a[k] in a;
    }
  }

  /** In a printed wrapper the first separator is the printed one, whatever the fields contain. */
  lemma SplitPrinted(a: string, b: string)
    requires '<' !in a
    ensures SplitWrapper(Wrap(PREFIX, a, SEPARATOR, b, SUFFIX)) == Some((a, b))
  {
    FirstSeparator(a, SEPARATOR, b + SUFFIX);
    FieldsOf(PREFIX, SEPARATOR, SUFFIX, a, b);
  }

  /** Parsing returns exactly what was printed, for all strings. */
  lemma ParsePrinted(source: string, prompt: string)
    ensures ParseDelegatedPrompt(DelegatedPrompt(source, prompt)) == Some((source, prompt))
  {
    EscapeHasNoAngle(source);
    SplitPrinted(Escape(source), Escape(prompt));
    UnescapeEscape(source);
    UnescapeEscape(prompt);
  }

  /** Printing what was parsed gives the text back iff its fields were canonically escaped. */
  lemma PrintParsed(text: string)
    requires SplitWrapper(text).Some?
    ensures var (a, b) := SplitWrapper(text).value;
      var (source, prompt) := ParseDelegatedPrompt(text).value;
      DelegatedPrompt(source, prompt) == text <==> Canonical(a) && Canonical(b)
  {
    var (a, b) := SplitWrapper(text).value;
    var (source, prompt) := ParseDelegatedPrompt(text).value;
    FieldsIff(text, PREFIX, SEPARATOR, SUFFIX, a, b);
    EscapeUnescape(a);
    EscapeUnescape(b);
    EscapeHasNoAngle(source);
    SplitPrinted(Escape(source), Escape(prompt));
    EscapeCanonical(source);
    EscapeCanonical(prompt);
  }
}
