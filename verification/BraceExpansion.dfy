// Brace expansion in registry anchors (proofs/src/anchor.rs): one group at a
// time, the first `{` with the first `}`, distributed over the word around it.

module BraceExpansion {
  import opened Options
  import opened Shrinking

  // ----- Text -----

  // Rust's `char::is_whitespace`.
  predicate IsSpace(c: char)
  {
    var n := c as int;
    || 9 <= n <= 13 || n == 0x20 || n == 0x85 || n == 0xA0 || n == 0x1680 || 0x2000 <= n <= 0x200A
    || n == 0x2028 || n == 0x2029 || n == 0x202F || n == 0x205F || n == 0x3000
  }

  // More than one byte in UTF-8, so the index one byte later is inside it.
  predicate Wide(c: char)
  {
    c as int >= 128
  }

  predicate SpaceFree(s: string)
  {
    forall c | c in s :: !IsSpace(c)
  }

  // Empty, or starting with whitespace.
  predicate StartsApart(s: string)
  {
    s == [] || IsSpace(s[0])
  }

  // Empty, or ending in whitespace.
  predicate EndsApart(s: string)
  {
    s == [] || IsSpace(s[|s| - 1])
  }

  // The first `c`, or the end.
  function Find(s: string, c: char): (i: nat)
    ensures i <= |s| && c !in s[..i] && (i < |s| ==> s[i] == c)
  {
    if s == [] || s[0] == c then 0 else 1 + Find(s[1..], c)
  }

  // The first whitespace, or the end.
  function FirstSpace(s: string): (i: nat)
    ensures i <= |s| && SpaceFree(s[..i]) && StartsApart(s[i..])
  {
    if s == [] || IsSpace(s[0]) then 0 else 1 + FirstSpace(s[1..])
  }

  // Just past the last whitespace, or the start.
  function WordStart(s: string): (i: nat)
    ensures i <= |s| && SpaceFree(s[i..]) && EndsApart(s[..i])
  {
    if s == [] || IsSpace(s[|s| - 1]) then |s|
    else
      var i := WordStart(s[..|s| - 1]);
      assert s[i..] == s[..|s| - 1][i..] + [s[|s| - 1]] && s[..i] == s[..|s| - 1][..i];
      i
  }

  function Split(s: string, sep: char): (parts: seq<string>)
    ensures parts != []
    decreases |s|
  {
    var i := Find(s, sep);
    if i == |s| then [s] else [s[..i]] + Split(s[i + 1..], sep)
  }

  function Join(words: seq<string>, sep: string): string
  {
    if words == [] then []
    else if |words| == 1 then words[0]
    else words[0] + sep + Join(words[1..], sep)
  }

  function Wrap(prefix: string, stems: seq<string>, suffix: string): (words: seq<string>)
    ensures |words| == |stems|
  {
    if stems == [] then [] else [prefix + stems[0] + suffix] + Wrap(prefix, stems[1..], suffix)
  }

  // ----- One step -----

  // A segment around its first group.
  datatype Cut = Cut(before: string, prefix: string, inner: string, suffix: string, after: string)

  function Uncut(c: Cut): string
  {
    c.before + c.prefix + "{" + c.inner + "}" + c.suffix + c.after
  }

  predicate BraceFree(s: string)
  {
    '{' !in s && '}' !in s
  }

  predicate IsFirstGroup(c: Cut)
  {
    && BraceFree(c.before) && BraceFree(c.prefix) && '}' !in c.inner
    && EndsApart(c.before) && SpaceFree(c.prefix) && SpaceFree(c.suffix) && StartsApart(c.after)
  }

  function FirstGroup(s: string): Option<Cut>
  {
    var open, close := Find(s, '{'), Find(s, '}');
    if open == |s| || close == |s| || close < open then None
    else
      var start := WordStart(s[..open]);
      var end := close + FirstSpace(s[close..]);
      assert s[close..][0] == '}';
      Some(Cut(s[..start], s[start..open], s[open + 1..close], s[close + 1..end], s[end..]))
  }

  // The group's stems, each in its own copy of the word.
  function Distribute(c: Cut): string
  {
    c.before + Join(Wrap(c.prefix, Split(c.inner, ','), c.suffix), " ") + c.after
  }

  datatype Step = Halt | Panic | Next(text: string)

  predicate WideBefore(gap: Option<char>, before: string)
  {
    if before != [] then Wide(before[|before| - 1]) else gap.Some? && Wide(gap.value)
  }

  // The word's start is taken to be one byte past the whitespace before it, so
  // the slice panics when that whitespace is longer.
  function StepOf(s: string): Step
  {
    match FirstGroup(s)
    case None => Halt
    case Some(c) => if WideBefore(None, c.before) then Panic else Next(Distribute(c))
  }

  function Turn(s: string): Option<string>
  {
    match StepOf(s)
    case Next(t) => Some(t)
    case _ => None
  }

  // ----- The first group is determined by its shape -----

  lemma {:induction false} SuffixShape(s: string, close: nat)
    requires close < |s| && s[close] == '}'
    ensures var end := close + FirstSpace(s[close..]);
            close < end <= |s| && SpaceFree(s[close + 1..end]) && StartsApart(s[end..])
  {
    assert s[close..][0] == '}';
    var end := close + FirstSpace(s[close..]);
    assert s[close..][..end - close] == s[close..end];
    assert s[close..][end - close..] == s[end..];
    assert forall c :: c in s[close + 1..end] ==> c in s[close..end];
  }

  lemma {:induction false} PrefixShape(s: string, open: nat, close: nat, start: nat)
    requires open < close < |s| && start == WordStart(s[..open]) && '{' !in s[..open] && '}' !in s[..close]
    ensures BraceFree(s[..start]) && BraceFree(s[start..open]) && '}' !in s[open + 1..close]
    ensures EndsApart(s[..start]) && SpaceFree(s[start..open])
  {
    assert s[..open][..start] == s[..start] && s[..open][start..] == s[start..open];
    assert forall c :: c in s[..start] || c in s[start..open] ==> c in s[..open];
    assert forall c :: c in s[..open] || c in s[open + 1..close] ==> c in s[..close];
  }

  lemma {:induction false} CutWhole(s: string, start: nat, open: nat, close: nat, end: nat)
    requires start <= open < close < end <= |s| && s[open] == '{' && s[close] == '}'
    ensures Uncut(Cut(s[..start], s[start..open], s[open + 1..close], s[close + 1..end], s[end..])) == s
  {
  }

  lemma {:induction false} FirstGroupShape(s: string)
    requires FirstGroup(s).Some?
    ensures IsFirstGroup(FirstGroup(s).value) && Uncut(FirstGroup(s).value) == s
  {
    var open, close := Find(s, '{'), Find(s, '}');
    assert open < close < |s| by { assert s[open] != s[close]; }
    GroupHasShape(s, WordStart(s[..open]), open, close, close + FirstSpace(s[close..]));
  }

  lemma {:induction false} GroupHasShape(s: string, start: nat, open: nat, close: nat, end: nat)
    requires open == Find(s, '{') < close == Find(s, '}') < |s| && start == WordStart(s[..open])
    requires end == close + FirstSpace(s[close..])
    ensures close < end <= |s|
    ensures var c := Cut(s[..start], s[start..open], s[open + 1..close], s[close + 1..end], s[end..]);
            IsFirstGroup(c) && Uncut(c) == s
  {
    SuffixShape(s, close);
    PrefixShape(s, open, close, start);
    CutWhole(s, start, open, close, end);
  }

  lemma {:induction false} FindIs(a: string, c: char, b: string)
    requires c !in a
    ensures Find(a + [c] + b, c) == |a|
  {
    if a != [] {
      assert a[0] in a && (a + [c] + b)[1..] == a[1..] + [c] + b;
      FindIs(a[1..], c, b);
    }
  }

  lemma {:induction false} FirstSpaceIs(a: string, b: string)
    requires SpaceFree(a) && StartsApart(b)
    ensures FirstSpace(a + b) == |a|
  {
    if a == [] {
      assert a + b == b;
    } else {
      assert a[0] in a && (a + b)[1..] == a[1..] + b;
      FirstSpaceIs(a[1..], b);
    }
  }

  lemma {:induction false} WordStartIs(a: string, b: string)
    requires EndsApart(a) && SpaceFree(b)
    ensures WordStart(a + b) == |a|
  {
    if b == [] {
      assert a + b == a;
    } else {
      var n := |b| - 1;
      assert b[n] in b && (a + b)[..|a + b| - 1] == a + b[..n];
      WordStartIs(a, b[..n]);
    }
  }

  lemma {:induction false} Braces(c: Cut)
    requires IsFirstGroup(c)
    ensures Find(Uncut(c), '{') == |c.before| + |c.prefix|
    ensures Find(Uncut(c), '}') == |c.before| + |c.prefix| + 1 + |c.inner|
  {
    var head, tail := c.before + c.prefix, c.suffix + c.after;
    assert Uncut(c) == head + ['{'] + (c.inner + "}" + tail);
    FindIs(head, '{', c.inner + "}" + tail);
    assert Uncut(c) == (head + "{" + c.inner) + ['}'] + tail;
    FindIs(head + "{" + c.inner, '}', tail);
  }

  lemma {:induction false} Pieces(c: Cut, s: string, open: nat, close: nat, end: nat)
    requires s == Uncut(c) && open == |c.before| + |c.prefix| && close == open + 1 + |c.inner|
    requires end == close + 1 + |c.suffix|
    ensures s[..open] == c.before + c.prefix && s[close..] == ("}" + c.suffix) + c.after
    ensures c == Cut(s[..|c.before|], s[|c.before|..open], s[open + 1..close], s[close + 1..end], s[end..])
  {
  }

  lemma {:induction false} Bounds(c: Cut, s: string, open: nat, close: nat)
    requires IsFirstGroup(c) && open <= |s| && close <= |s|
    requires s[..open] == c.before + c.prefix && s[close..] == ("}" + c.suffix) + c.after
    ensures WordStart(s[..open]) == |c.before| && FirstSpace(s[close..]) == 1 + |c.suffix|
  {
    WordStartIs(c.before, c.prefix);
    FirstSpaceIs("}" + c.suffix, c.after);
  }

  lemma {:induction false} GroupAt(s: string, start: nat, open: nat, close: nat, end: nat)
    requires open == Find(s, '{') < close == Find(s, '}') < end <= |s| && start == WordStart(s[..open])
    requires end == close + FirstSpace(s[close..])
    ensures FirstGroup(s) == Some(Cut(s[..start], s[start..open], s[open + 1..close], s[close + 1..end], s[end..]))
  {
  }

  lemma {:induction false} FirstGroupOf(c: Cut)
    requires IsFirstGroup(c)
    ensures FirstGroup(Uncut(c)) == Some(c)
  {
    var open := |c.before| + |c.prefix|;
    var close := open + 1 + |c.inner|;
    Braces(c);
    Pieces(c, Uncut(c), open, close, close + 1 + |c.suffix|);
    Bounds(c, Uncut(c), open, close);
    GroupAt(Uncut(c), |c.before|, open, close, close + 1 + |c.suffix|);
  }

  // ----- Closing braces per word -----

  function Closes(s: string): nat
  {
    if s == [] then 0 else (if s[0] == '}' then 1 else 0) + Closes(s[1..])
  }

  // The closing braces before the first whitespace.
  function Leading(s: string): nat
  {
    if s == [] || IsSpace(s[0]) then 0 else (if s[0] == '}' then 1 else 0) + Leading(s[1..])
  }

  // The nonzero counts of the chunks after it.
  function Later(s: string): seq<nat>
  {
    if s == [] then [] else (if IsSpace(s[0]) then Copies(Leading(s[1..]), 1) else []) + Later(s[1..])
  }

  // The closing braces of each whitespace-delimited chunk, zeros left out.
  function Counts(s: string): seq<nat>
  {
    Copies(Leading(s), 1) + Later(s)
  }

  // Text without closing braces in front changes no count.
  lemma {:induction false} CountsSkip(x: string, y: string)
    requires '}' !in x
    ensures Counts(x + y) == Counts(y)
  {
    if x == [] {
      assert x + y == y;
    } else {
      assert (x + y)[1..] == x[1..] + y && x[0] in x;
      CountsSkip(x[1..], y);
    }
  }

  lemma {:induction false} CountsWord(w: string, rest: string)
    requires SpaceFree(w) && StartsApart(rest)
    ensures Leading(w + rest) == Closes(w) && Later(w + rest) == Later(rest)
    ensures Counts(w + rest) == Copies(Closes(w), 1) + Counts(rest)
  {
    if w == [] {
      assert w + rest == rest;
    } else {
      assert (w + rest)[1..] == w[1..] + rest && w[0] in w;
      CountsWord(w[1..], rest);
    }
  }

  // `k` words around brace-free stems hold `k` copies of the suffix's braces.
  lemma {:induction false} CountsWords(prefix: string, stems: seq<string>, suffix: string, rest: string)
    requires stems != [] && '}' !in prefix && (forall i :: 0 <= i < |stems| ==> '}' !in stems[i])
    requires SpaceFree(suffix) && StartsApart(rest)
    ensures Counts(Join(Wrap(prefix, stems, suffix), " ") + rest) == Copies(Closes(suffix), |stems|) + Counts(rest)
  {
    var words := Wrap(prefix, stems, suffix);
    var head := prefix + stems[0];
    if |stems| == 1 {
      assert Join(words, " ") + rest == head + (suffix + rest);
      CountsSkip(head, suffix + rest);
      CountsWord(suffix, rest);
    } else {
      var others := Join(words[1..], " ") + rest;
      assert Join(words, " ") + rest == head + (suffix + (" " + others));
      CountsSkip(head, suffix + (" " + others));
      CountsWord(suffix, " " + others);
      CountsSkip(" ", others);
      CountsWords(prefix, stems[1..], suffix, rest);
      CopiesMore(Closes(suffix), |stems|, Counts(rest));
    }
  }

  lemma {:induction false} CopiesMore(n: nat, k: nat, rest: seq<nat>)
    requires k > 0
    ensures Copies(n, 1) + (Copies(n, k - 1) + rest) == Copies(n, k) + rest
  {
  }

  lemma {:induction false} SplitHasNo(s: string, sep: char, c: char)
    requires c !in s
    ensures forall i :: 0 <= i < |Split(s, sep)| ==> c !in Split(s, sep)[i]
    decreases |s|
  {
    var i := Find(s, sep);
    if i < |s| { SplitHasNo(s[i + 1..], sep, c); }
  }

  // One step turns the first count, `1 + n`, into some copies of `n`.
  lemma {:induction false} CutShrinks(c: Cut)
    requires IsFirstGroup(c)
    ensures Shrinks(Counts(Uncut(c)), Counts(Distribute(c)))
  {
    CountsBefore(c);
    CountsAfter(c);
    CopiesShrink(Counts(Uncut(c)), Counts(Distribute(c)), Closes(c.suffix), |Split(c.inner, ',')|, Counts(c.after));
  }

  lemma {:induction false} CopiesShrink(a: seq<nat>, b: seq<nat>, n: nat, k: nat, rest: seq<nat>)
    requires k > 0 && a == Copies(1 + n, 1) + rest && b == Copies(n, k) + rest
    ensures Shrinks(a, b)
  {
    assert Copies(1 + n, 1) == [1 + n];
    assert a[0] == 1 + n && a[1..] == rest;
    assert Spends(a, b, n, k);
  }

  lemma {:induction false} CountsBefore(c: Cut)
    requires IsFirstGroup(c)
    ensures Counts(Uncut(c)) == Copies(1 + Closes(c.suffix), 1) + Counts(c.after)
  {
    var head := c.before + c.prefix + "{" + c.inner;
    assert Uncut(c) == head + (("}" + c.suffix) + c.after);
    CountsSkip(head, ("}" + c.suffix) + c.after);
    OneClose(c.suffix);
    CountsWord("}" + c.suffix, c.after);
  }

  lemma {:induction false} OneClose(suffix: string)
    requires SpaceFree(suffix)
    ensures SpaceFree("}" + suffix) && Closes("}" + suffix) == 1 + Closes(suffix)
  {
    assert ("}" + suffix)[1..] == suffix;
  }

  lemma {:induction false} CountsAfter(c: Cut)
    requires IsFirstGroup(c)
    ensures Counts(Distribute(c)) == Copies(Closes(c.suffix), |Split(c.inner, ',')|) + Counts(c.after)
  {
    var stems := Split(c.inner, ',');
    SplitHasNo(c.inner, ',', '}');
    CountsWords(c.prefix, stems, c.suffix, c.after);
    var words := Join(Wrap(c.prefix, stems, c.suffix), " ");
    assert Distribute(c) == c.before + (words + c.after);
    CountsSkip(c.before, words + c.after);
  }

  lemma {:induction false} TurnsShrink()
    ensures AlwaysShrinks(Turn, Counts)
  {
    forall s | Turn(s).Some?
      ensures Shrinks(Counts(s), Counts(Turn(s).value))
    {
      FirstGroupShape(s);
      CutShrinks(FirstGroup(s).value);
    }
  }

  // ----- Expansion, on every string -----

  ghost function Steps(s: string): nat
  {
    TurnsShrink();
    StepsFrom(Turn, Counts, s)
  }

  lemma {:induction false} StepsFall(s: string)
    requires Turn(s).Some?
    ensures Steps(Turn(s).value) < Steps(s)
  {
    TurnsShrink();
    StepsDrop(Turn, Counts, s);
  }

  datatype Expansion = Expanded(text: string) | Panicked

  function ExpandBraces(s: string): Expansion
    decreases Steps(s)
  {
    match StepOf(s)
    case Halt => Expanded(s)
    case Panic => Panicked
    case Next(t) => StepsFall(s); ExpandBraces(t)
  }

  // A group closes before it opens, or is missing on one side.
  predicate Settled(s: string)
  {
    FirstGroup(s).None?
  }

  // What comes out holds no further group, so expanding it again is the identity.
  lemma {:induction false} ExpandsOnce(s: string)
    requires ExpandBraces(s).Expanded?
    ensures Settled(ExpandBraces(s).text) && ExpandBraces(ExpandBraces(s).text) == ExpandBraces(s)
    decreases Steps(s)
  {
    if StepOf(s).Next? {
      StepsFall(s);
      ExpandsOnce(StepOf(s).text);
    }
  }

  // ----- Panics need wide whitespace -----

  predicate Narrow(s: string)
  {
    forall c | c in s && IsSpace(c) :: !Wide(c)
  }

  lemma {:induction false} SplitNarrow(s: string, sep: char)
    requires Narrow(s)
    ensures forall i :: 0 <= i < |Split(s, sep)| ==> Narrow(Split(s, sep)[i])
    decreases |s|
  {
    var i := Find(s, sep);
    if i < |s| { SplitNarrow(s[i + 1..], sep); }
  }

  lemma {:induction false} JoinNarrow(prefix: string, stems: seq<string>, suffix: string)
    requires Narrow(prefix) && Narrow(suffix) && forall i :: 0 <= i < |stems| ==> Narrow(stems[i])
    ensures Narrow(Join(Wrap(prefix, stems, suffix), " "))
  {
    if stems != [] { JoinNarrow(prefix, stems[1..], suffix); }
  }

  lemma {:induction false} NarrowStep(s: string)
    requires Narrow(s) && FirstGroup(s).Some?
    ensures StepOf(s).Next? && Narrow(StepOf(s).text)
  {
    FirstGroupShape(s);
    var c := FirstGroup(s).value;
    NarrowParts(c);
    SplitNarrow(c.inner, ',');
    JoinNarrow(c.prefix, Split(c.inner, ','), c.suffix);
  }

  lemma {:induction false} NarrowParts(c: Cut)
    requires Narrow(Uncut(c)) && EndsApart(c.before)
    ensures Narrow(c.before) && Narrow(c.prefix) && Narrow(c.inner) && Narrow(c.suffix) && Narrow(c.after)
    ensures !WideBefore(None, c.before)
  {
    assert forall x :: x in c.before || x in c.prefix || x in c.inner || x in c.suffix || x in c.after ==> x in Uncut(c);
  }

  // Without wide whitespace expansion never panics, whatever the nesting.
  lemma {:induction false} NarrowNeverPanics(s: string)
    requires Narrow(s)
    ensures ExpandBraces(s).Expanded?
    decreases Steps(s)
  {
    if FirstGroup(s).Some? {
      NarrowStep(s);
      StepsFall(s);
      NarrowNeverPanics(StepOf(s).text);
    }
  }

  // ----- Segments without nested groups -----

  datatype Group = Group(stems: seq<string>, literal: string)

  datatype Word = Word(first: string, groups: seq<Group>)

  // Words, possibly empty, separated by single whitespace characters.
  datatype Segment = Segment(word: Word, tail: Tail)

  datatype Tail = End | Gap(space: char, rest: Segment)

  predicate Plain(s: string)
  {
    BraceFree(s) && SpaceFree(s)
  }

  predicate ValidStem(s: string)
  {
    Plain(s) && ',' !in s
  }

  predicate ValidGroup(g: Group)
  {
    g.stems != [] && (forall i :: 0 <= i < |g.stems| ==> ValidStem(g.stems[i])) && Plain(g.literal)
  }

  predicate ValidWord(w: Word)
  {
    Plain(w.first) && forall i :: 0 <= i < |w.groups| ==> ValidGroup(w.groups[i])
  }

  predicate ValidSegment(seg: Segment)
  {
    ValidWord(seg.word) && (seg.tail.Gap? ==> IsSpace(seg.tail.space) && ValidSegment(seg.tail.rest))
  }

  function GroupsText(gs: seq<Group>): string
  {
    if gs == [] then [] else "{" + Join(gs[0].stems, ",") + "}" + (gs[0].literal + GroupsText(gs[1..]))
  }

  function WordText(w: Word): string
  {
    w.first + GroupsText(w.groups)
  }

  function Text(seg: Segment): string
  {
    WordText(seg.word) + TailText(seg.tail)
  }

  function TailText(t: Tail): string
  {
    match t
    case End => []
    case Gap(c, rest) => [c] + Text(rest)
  }

  // ----- What expansion should give: the product of each word's groups -----

  function Prepend(p: string, words: seq<string>): (r: seq<string>)
    ensures |r| == |words|
  {
    if words == [] then [] else [p + words[0]] + Prepend(p, words[1..])
  }

  // Each stem before each ending, the stems outermost.
  function Cross(stems: seq<string>, literal: string, endings: seq<string>): seq<string>
  {
    if stems == [] then [] else Prepend(stems[0] + literal, endings) + Cross(stems[1..], literal, endings)
  }

  function Product(gs: seq<Group>): seq<string>
  {
    if gs == [] then [[]] else Cross(gs[0].stems, gs[0].literal, Product(gs[1..]))
  }

  function Meaning(seg: Segment): string
  {
    Join(Prepend(seg.word.first, Product(seg.word.groups)), " ") + TailMeaning(seg.tail)
  }

  function TailMeaning(t: Tail): string
  {
    match t
    case End => []
    case Gap(c, rest) => [c] + Meaning(rest)
  }

  // A word with a group right after wide whitespace.
  predicate Panics(gap: Option<char>, seg: Segment)
    decreases seg
  {
    || (seg.word.groups != [] && gap.Some? && Wide(gap.value))
    || TailPanics(seg.tail)
  }

  predicate TailPanics(t: Tail)
    decreases t
  {
    t.Gap? && Panics(Some(t.space), t.rest)
  }

  // ----- The step on segments -----

  predicate HasGroup(seg: Segment)
  {
    seg.word.groups != [] || (seg.tail.Gap? && HasGroup(seg.tail.rest))
  }

  // The first group taken out, once per stem.
  function Choices(w: Word, stems: seq<string>): (ws: seq<Word>)
    requires w.groups != []
    ensures |ws| == |stems|
  {
    if stems == [] then []
    else [Word(w.first + stems[0] + w.groups[0].literal, w.groups[1..])] + Choices(w, stems[1..])
  }

  function Chain(ws: seq<Word>, tail: Tail): Segment
    requires ws != []
  {
    Segment(ws[0], if |ws| == 1 then tail else Gap(' ', Chain(ws[1..], tail)))
  }

  function SegmentStep(seg: Segment): Segment
    requires HasGroup(seg) && ValidSegment(seg)
  {
    if seg.word.groups != [] then
      assert ValidGroup(seg.word.groups[0]);
      Chain(Choices(seg.word, seg.word.groups[0].stems), seg.tail)
    else Segment(seg.word, Gap(seg.tail.space, SegmentStep(seg.tail.rest)))
  }

  // The first word with a group follows wide whitespace.
  predicate StepPanics(gap: Option<char>, seg: Segment)
    decreases seg
  {
    if seg.word.groups != [] then gap.Some? && Wide(gap.value)
    else seg.tail.Gap? && StepPanics(Some(seg.tail.space), seg.tail.rest)
  }

  lemma {:induction false} SplitJoin(stems: seq<string>)
    requires stems != [] && forall i :: 0 <= i < |stems| ==> ',' !in stems[i]
    ensures Split(Join(stems, ","), ',') == stems
  {
    var s := Join(stems, ",");
    if |stems| > 1 {
      var others := Join(stems[1..], ",");
      assert s == stems[0] + [','] + others;
      FindIs(stems[0], ',', others);
      assert s[..|stems[0]|] == stems[0] && s[|stems[0]| + 1..] == others;
      SplitJoin(stems[1..]);
    }
  }

  lemma {:induction false} JoinHasNo(stems: seq<string>, c: char)
    requires c != ',' && forall i :: 0 <= i < |stems| ==> c !in stems[i]
    ensures c !in Join(stems, ",")
  {
    if |stems| > 1 { JoinHasNo(stems[1..], c); }
  }

  // Commas are not whitespace, so a word stays one word.
  lemma {:induction false} JoinSpaceFree(stems: seq<string>)
    requires forall i :: 0 <= i < |stems| ==> SpaceFree(stems[i])
    ensures SpaceFree(Join(stems, ","))
  {
    if |stems| > 1 { JoinSpaceFree(stems[1..]); }
  }

  lemma {:induction false} GroupsSpaceFree(gs: seq<Group>)
    requires forall i :: 0 <= i < |gs| ==> ValidGroup(gs[i])
    ensures SpaceFree(GroupsText(gs))
  {
    if gs != [] {
      assert ValidGroup(gs[0]);
      JoinSpaceFree(gs[0].stems);
      GroupsSpaceFree(gs[1..]);
    }
  }

  lemma {:induction false} ChoicesText(w: Word, stems: seq<string>, tail: Tail)
    requires w.groups != [] && stems != []
    ensures Text(Chain(Choices(w, stems), tail))
         == Join(Wrap(w.first, stems, w.groups[0].literal + GroupsText(w.groups[1..])), " ") + TailText(tail)
  {
    var suffix := w.groups[0].literal + GroupsText(w.groups[1..]);
    var word := Choices(w, stems)[0];
    assert WordText(word) == w.first + stems[0] + suffix;
    if |stems| > 1 {
      ChoicesText(w, stems[1..], tail);
      var others := Join(Wrap(w.first, stems[1..], suffix), " ");
      assert WordText(word) + (" " + (others + TailText(tail))) == WordText(word) + " " + others + TailText(tail);
    }
  }

  // The cut at a word with groups.
  function WordCut(seg: Segment): Cut
    requires seg.word.groups != []
  {
    var g := seg.word.groups[0];
    Cut([], seg.word.first, Join(g.stems, ","), g.literal + GroupsText(seg.word.groups[1..]), TailText(seg.tail))
  }

  lemma {:induction false} WordCutIsFirst(seg: Segment)
    requires ValidSegment(seg) && seg.word.groups != []
    ensures IsFirstGroup(WordCut(seg))
  {
    var gs := seg.word.groups;
    assert ValidGroup(gs[0]);
    JoinHasNo(gs[0].stems, '}');
    GroupsSpaceFree(gs[1..]);
  }

  lemma {:induction false} UncutWord(first: string, inner: string, suffix: string, after: string)
    ensures Uncut(Cut([], first, inner, suffix, after)) == (first + ("{" + inner + "}" + suffix)) + after
  {
  }

  lemma {:induction false} WordCutText(seg: Segment)
    requires seg.word.groups != []
    ensures Uncut(WordCut(seg)) == Text(seg)
  {
    var c := WordCut(seg);
    UncutWord(c.prefix, c.inner, c.suffix, c.after);
  }

  lemma {:induction false} WordCutDistributes(seg: Segment)
    requires ValidSegment(seg) && seg.word.groups != []
    ensures Distribute(WordCut(seg)) == Text(SegmentStep(seg))
  {
    var g := seg.word.groups[0];
    assert ValidGroup(g);
    SplitJoin(g.stems);
    ChoicesText(seg.word, g.stems, seg.tail);
    var c := WordCut(seg);
    var words := Join(Wrap(c.prefix, g.stems, c.suffix), " ");
    assert [] + words == words;
  }

  lemma {:induction false} CutAfter(head: string, d: Cut)
    requires IsFirstGroup(d) && BraceFree(head) && head != [] && EndsApart(head)
    ensures var c := d.(before := head + d.before);
            IsFirstGroup(c) && Uncut(c) == head + Uncut(d) && Distribute(c) == head + Distribute(d)
  {
  }

  // The first group of the text is that of the first word with groups.
  lemma {:induction false} SegmentCut(gap: Option<char>, seg: Segment) returns (c: Cut)
    requires ValidSegment(seg) && HasGroup(seg)
    ensures IsFirstGroup(c) && Uncut(c) == Text(seg) && Distribute(c) == Text(SegmentStep(seg))
    ensures WideBefore(gap, c.before) == StepPanics(gap, seg)
    decreases seg
  {
    if seg.word.groups != [] {
      WordCutIsFirst(seg);
      WordCutText(seg);
      WordCutDistributes(seg);
      c := WordCut(seg);
    } else {
      var d := SegmentCut(Some(seg.tail.space), seg.tail.rest);
      var head := seg.word.first + [seg.tail.space];
      assert BraceFree(head) && EndsApart(head);
      CutAfter(head, d);
      TextAfterGap(seg.word, seg.tail.space, seg.tail.rest);
      TextAfterGap(seg.word, seg.tail.space, SegmentStep(seg.tail.rest));
      c := d.(before := head + d.before);
      WideAfter(head, d.before, seg.tail.space, gap);
    }
  }

  lemma {:induction false} TextAfterGap(w: Word, space: char, rest: Segment)
    requires w.groups == []
    ensures Text(Segment(w, Gap(space, rest))) == (w.first + [space]) + Text(rest)
  {
    assert WordText(w) == w.first;
  }

  lemma {:induction false} WideAfter(head: string, before: string, space: char, gap: Option<char>)
    requires head != [] && head[|head| - 1] == space
    ensures WideBefore(gap, head + before) == WideBefore(Some(space), before)
  {
  }

  // The step on text is the step on segments.
  lemma {:induction false} StepOfText(seg: Segment)
    requires ValidSegment(seg) && HasGroup(seg)
    ensures StepOf(Text(seg)) == if StepPanics(None, seg) then Panic else Next(Text(SegmentStep(seg)))
  {
    var c := SegmentCut(None, seg);
    FirstGroupOf(c);
  }

  // ----- The step keeps the meaning -----

  lemma {:induction false} PrependAdd(p: string, a: seq<string>, b: seq<string>)
    ensures Prepend(p, a + b) == Prepend(p, a) + Prepend(p, b)
  {
    if a == [] {
      assert a + b == b;
    } else {
      assert (a + b)[1..] == a[1..] + b;
      PrependAdd(p, a[1..], b);
    }
  }

  lemma {:induction false} PrependTwice(p: string, q: string, words: seq<string>)
    ensures Prepend(p, Prepend(q, words)) == Prepend(p + q, words)
  {
    if words != [] {
      assert p + (q + words[0]) == p + q + words[0];
      PrependTwice(p, q, words[1..]);
    }
  }

  lemma {:induction false} JoinAdd(a: seq<string>, b: seq<string>)
    requires a != [] && b != []
    ensures Join(a + b, " ") == Join(a, " ") + " " + Join(b, " ")
  {
    assert (a + b)[1..] == a[1..] + b;
    if |a| > 1 { JoinAdd(a[1..], b); }
  }

  lemma {:induction false} ProductNonempty(gs: seq<Group>)
    requires forall i :: 0 <= i < |gs| ==> ValidGroup(gs[i])
    ensures Product(gs) != []
  {
    if gs != [] {
      assert ValidGroup(gs[0]);
      ProductNonempty(gs[1..]);
    }
  }

  // The words of the first stem, before those of the others.
  lemma {:induction false} CrossFirst(first: string, stems: seq<string>, literal: string, endings: seq<string>)
    requires stems != []
    ensures Prepend(first, Cross(stems, literal, endings))
         == Prepend(first + stems[0] + literal, endings) + Prepend(first, Cross(stems[1..], literal, endings))
  {
    PrependAdd(first, Prepend(stems[0] + literal, endings), Cross(stems[1..], literal, endings));
    PrependTwice(first, stems[0] + literal, endings);
    assert first + (stems[0] + literal) == first + stems[0] + literal;
  }

  lemma {:induction false} ChoicesMeaning(w: Word, stems: seq<string>, tail: Tail)
    requires w.groups != [] && stems != [] && Product(w.groups[1..]) != []
    ensures Meaning(Chain(Choices(w, stems), tail))
         == Join(Prepend(w.first, Cross(stems, w.groups[0].literal, Product(w.groups[1..]))), " ") + TailMeaning(tail)
  {
    var literal, endings := w.groups[0].literal, Product(w.groups[1..]);
    var here := Prepend(w.first + stems[0] + literal, endings);
    var there := Prepend(w.first, Cross(stems[1..], literal, endings));
    CrossFirst(w.first, stems, literal, endings);
    if |stems| == 1 {
      assert there == [] && here + there == here;
    } else {
      ChoicesMeaning(w, stems[1..], tail);
      JoinAdd(here, there);
      JoinedThen(Join(here, " "), Join(there, " "), TailMeaning(tail));
    }
  }

  lemma {:induction false} JoinedThen(a: string, b: string, c: string)
    ensures a + ([' '] + (b + c)) == a + " " + b + c
  {
  }

  lemma {:induction false} StepKeepsMeaning(seg: Segment)
    requires ValidSegment(seg) && HasGroup(seg)
    ensures Meaning(SegmentStep(seg)) == Meaning(seg)
    decreases seg
  {
    if seg.word.groups != [] {
      var gs := seg.word.groups;
      assert ValidGroup(gs[0]);
      ProductNonempty(gs[1..]);
      ChoicesMeaning(seg.word, gs[0].stems, seg.tail);
    } else {
      StepKeepsMeaning(seg.tail.rest);
    }
  }

  lemma {:induction false} ChoicesValid(w: Word, stems: seq<string>, tail: Tail)
    requires ValidWord(w) && w.groups != [] && stems != []
    requires forall i :: 0 <= i < |stems| ==> ValidStem(stems[i])
    requires tail.Gap? ==> IsSpace(tail.space) && ValidSegment(tail.rest)
    ensures ValidSegment(Chain(Choices(w, stems), tail))
  {
    assert ValidGroup(w.groups[0]) && ValidStem(stems[0]);
    if |stems| > 1 { ChoicesValid(w, stems[1..], tail); }
  }

  lemma {:induction false} ChainPanics(gap: Option<char>, ws: seq<Word>, tail: Tail)
    requires ws != [] && (gap.Some? ==> !Wide(gap.value))
    ensures Panics(gap, Chain(ws, tail)) == TailPanics(tail)
    decreases |ws|
  {
    if |ws| > 1 { ChainPanics(Some(' '), ws[1..], tail); }
  }

  lemma {:induction false} StepKeepsValid(gap: Option<char>, seg: Segment)
    requires ValidSegment(seg) && HasGroup(seg) && !StepPanics(gap, seg)
    ensures ValidSegment(SegmentStep(seg)) && Panics(gap, SegmentStep(seg)) == Panics(gap, seg)
    decreases seg
  {
    if seg.word.groups != [] {
      var stems := seg.word.groups[0].stems;
      assert ValidGroup(seg.word.groups[0]);
      ChoicesValid(seg.word, stems, seg.tail);
      ChainPanics(gap, Choices(seg.word, stems), seg.tail);
    } else {
      StepKeepsValid(Some(seg.tail.space), seg.tail.rest);
    }
  }

  lemma {:induction false} StepPanicIsPanic(gap: Option<char>, seg: Segment)
    requires StepPanics(gap, seg)
    ensures Panics(gap, seg)
    decreases seg
  {
    if seg.word.groups == [] { StepPanicIsPanic(Some(seg.tail.space), seg.tail.rest); }
  }

  lemma {:induction false} WithoutGroups(gap: Option<char>, seg: Segment)
    requires ValidSegment(seg) && !HasGroup(seg)
    ensures BraceFree(Text(seg)) && Meaning(seg) == Text(seg) && !Panics(gap, seg)
    decreases seg
  {
    assert seg.word.first + [] == seg.word.first;
    if seg.tail.Gap? { WithoutGroups(Some(seg.tail.space), seg.tail.rest); }
  }

  // ----- Expansion of a segment without nested groups -----

  // Each word becomes the space-joined product of its groups, leftmost group
  // slowest, and everything else stays; it panics exactly when some word with a
  // group follows whitespace of more than one byte.
  lemma {:induction false} ExpandsToProduct(seg: Segment)
    requires ValidSegment(seg)
    ensures ExpandBraces(Text(seg)) == if Panics(None, seg) then Panicked else Expanded(Meaning(seg))
    decreases Steps(Text(seg))
  {
    if !HasGroup(seg) {
      WithoutGroups(None, seg);
    } else {
      StepOfText(seg);
      if StepPanics(None, seg) {
        StepPanicIsPanic(None, seg);
      } else {
        StepsFall(Text(seg));
        StepKeepsValid(None, seg);
        StepKeepsMeaning(seg);
        ExpandsToProduct(SegmentStep(seg));
      }
    }
  }

  // Any such whitespace before a group is enough.
  lemma {:induction false} WideSpacePanics(c: char)
    requires IsSpace(c) && Wide(c)
    ensures ExpandBraces([c] + "{a}") == Panicked
  {
    var cut := Cut([c], [], "a", [], []);
    assert Uncut(cut) == [c] + "{a}";
    FirstGroupOf(cut);
  }

  // ----- The product, word by word -----

  // One stem for each group.
  predicate IsChoice(gs: seq<Group>, choice: seq<nat>)
  {
    |choice| == |gs| && forall i :: 0 <= i < |gs| ==> choice[i] < |gs[i].stems|
  }

  // The word it spells.
  function Spelled(gs: seq<Group>, choice: seq<nat>): string
    requires IsChoice(gs, choice)
  {
    if gs == [] then [] else gs[0].stems[choice[0]] + gs[0].literal + Spelled(gs[1..], choice[1..])
  }

  function Times(n: nat, m: nat): nat
  {
    if n == 0 then 0 else m + Times(n - 1, m)
  }

  // How many choices there are, and the place of one: the leftmost group counts
  // slowest.
  function ChoiceCount(gs: seq<Group>): nat
  {
    if gs == [] then 1 else Times(|gs[0].stems|, ChoiceCount(gs[1..]))
  }

  function Place(gs: seq<Group>, choice: seq<nat>): nat
    requires IsChoice(gs, choice)
  {
    if gs == [] then 0 else Times(choice[0], ChoiceCount(gs[1..])) + Place(gs[1..], choice[1..])
  }

  lemma {:induction false} PrependAt(p: string, words: seq<string>, k: nat)
    requires k < |words|
    ensures Prepend(p, words)[k] == p + words[k]
  {
    if k > 0 { PrependAt(p, words[1..], k - 1); }
  }

  lemma {:induction false} CrossAt(stems: seq<string>, literal: string, endings: seq<string>, a: nat, k: nat)
    requires a < |stems| && k < |endings|
    ensures Times(a, |endings|) + k < |Cross(stems, literal, endings)|
    ensures Cross(stems, literal, endings)[Times(a, |endings|) + k] == stems[a] + literal + endings[k]
  {
    var head := Prepend(stems[0] + literal, endings);
    if a == 0 {
      PrependAt(stems[0] + literal, endings, k);
    } else {
      CrossAt(stems[1..], literal, endings, a - 1, k);
      var n := Times(a - 1, |endings|) + k;
      assert (head + Cross(stems[1..], literal, endings))[|head| + n] == Cross(stems[1..], literal, endings)[n];
    }
  }

  lemma {:induction false} CrossLength(stems: seq<string>, literal: string, endings: seq<string>)
    ensures |Cross(stems, literal, endings)| == Times(|stems|, |endings|)
  {
    if stems != [] { CrossLength(stems[1..], literal, endings); }
  }

  // The product holds the word of every choice of stems at that choice's place,
  // and as many words as there are choices.
  lemma {:induction false} ProductAt(gs: seq<Group>, choice: seq<nat>)
    requires IsChoice(gs, choice)
    ensures |Product(gs)| == ChoiceCount(gs) && Place(gs, choice) < |Product(gs)|
    ensures Product(gs)[Place(gs, choice)] == Spelled(gs, choice)
  {
    if gs != [] {
      var endings := Product(gs[1..]);
      ProductAt(gs[1..], choice[1..]);
      CrossLength(gs[0].stems, gs[0].literal, endings);
      CrossAt(gs[0].stems, gs[0].literal, endings, choice[0], Place(gs[1..], choice[1..]));
    }
  }

  // The least of them: two stems between a prefix and a suffix.
  lemma {:induction false} TwoStems(prefix: string, x: string, y: string, suffix: string)
    requires Plain(prefix) && ValidStem(x) && ValidStem(y) && Plain(suffix)
    ensures ExpandBraces(prefix + "{" + x + "," + y + "}" + suffix)
         == Expanded(prefix + x + suffix + " " + prefix + y + suffix)
  {
    var g := Group([x, y], suffix);
    var seg := Segment(Word(prefix, [g]), End);
    TwoStemsJoined(x, y);
    assert GroupsText([g]) == "{" + (x + "," + y) + "}" + (suffix + []);
    assert Text(seg) == prefix + "{" + x + "," + y + "}" + suffix;
    TwoStemsMeaning(prefix, x, y, suffix);
    ExpandsToProduct(seg);
  }

  lemma {:induction false} TwoStemsJoined(x: string, y: string)
    ensures Join([x, y], ",") == x + "," + y && Join([x, y], " ") == x + " " + y
  {
    assert [x, y][1..] == [y];
  }

  lemma {:induction false} TwoStemsMeaning(prefix: string, x: string, y: string, suffix: string)
    ensures Meaning(Segment(Word(prefix, [Group([x, y], suffix)]), End)) == prefix + x + suffix + " " + prefix + y + suffix
  {
    var gs := [Group([x, y], suffix)];
    assert gs[1..] == [];
    CrossTwo(x, y, suffix, "");
    assert Product(gs) == Cross([x, y], suffix, [""]);
    PrependTwo(prefix, x + suffix + "", y + suffix + "");
    var a, b := prefix + (x + suffix + ""), prefix + (y + suffix + "");
    TwoStemsJoined(a, b);
    assert a == prefix + x + suffix && b == prefix + y + suffix;
  }

  lemma {:induction false} PrependTwo(p: string, a: string, b: string)
    ensures Prepend(p, [b]) == [p + b] && Prepend(p, [a, b]) == [p + a, p + b]
  {
    assert [a, b][1..] == [b] && [b][1..] == [];
    assert Prepend(p, [b][1..]) == [];
  }

  lemma {:induction false} CrossTwo(x: string, y: string, literal: string, ending: string)
    ensures Cross([x, y], literal, [ending]) == [x + literal + ending, y + literal + ending]
  {
    assert [x, y][1..] == [y] && [y][1..] == [];
    assert Cross([y][1..], literal, [ending]) == [];
    PrependTwo(x + literal, ending, ending);
    PrependTwo(y + literal, ending, ending);
    assert Cross([y], literal, [ending]) == [y + literal + ending] + [];
  }
}
