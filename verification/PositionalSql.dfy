/**
 Positional placeholders turned into named ones: the text of a query rewritten so
 that it means the same, and a reader of bind parameters finds exactly the new ones.
 */
module PositionalSql {
  import opened Wrappers

  /** What counts as a word character: str.isalnum, or the underscore. */
  type Words = char -> bool

  /** What the rewriting needs of it: names of parameters are words; colons, backslashes, quotes and marks are not. */
  predicate Usual(word: Words) {
    && word('p') && (forall d <- DIGITS :: word(d)) && !word(':') && !word('\\')
    && !word('\'') && !word('"') && !word('?') && !word('%')
  }

  const DIGITS := "0123456789"

  // ---------- what a query says: literals, and placeholders outside them ----------

  datatype Token = Char(c: char) | Placeholder

  predicate IsQuote(c: char) {
    c == '\'' || c == '"'
  }

  /** A placeholder stands here: a question mark, or the driver's own %s. */
  predicate Marks(s: string, i: nat) {
    i < |s| && (s[i] == '?' || (s[i] == '%' && i + 1 < |s| && s[i + 1] == 's'))
  }

  function MarkLength(s: string, i: nat): nat
    requires Marks(s, i)
  {
    if s[i] == '?' then 1 else 2
  }

  /** A quote opens a literal, and the same quote closes it; marks count only outside. */
  function Meaning(s: string, i: nat, quote: Option<char>): seq<Token>
    requires i <= |s|
    decreases |s| - i
  {
    if i == |s| then []
    else if quote.Some? then [Char(s[i])] + Meaning(s, i + 1, if s[i] == quote.value then None else quote)
    else if IsQuote(s[i]) then [Char(s[i])] + Meaning(s, i + 1, Some(s[i]))
    else if Marks(s, i) then [Placeholder] + Meaning(s, i + MarkLength(s, i), None)
    else [Char(s[i])] + Meaning(s, i + 1, None)
  }

  function Count(tokens: seq<Token>): nat {
    if tokens == [] then 0 else (if tokens[0].Placeholder? then 1 else 0) + Count(tokens[1..])
  }

  // ---------- the rewriting ----------

  /** The colon here would be read as the start of a parameter. */
  predicate TakesColon(word: Words, s: string, i: nat)
    requires i < |s|
  {
    && (i == 0 || s[i - 1] != ':')
    && i + 1 < |s| && s[i + 1] != ':' && word(s[i + 1])
  }

  /** A piece of the output: a character as it was, a colon escaped, or a numbered parameter. */
  datatype Piece = Text(c: char) | Escaped | Slot(n: nat)

  function Kept(word: Words, s: string, i: nat): Piece
    requires i < |s|
  {
    if s[i] == ':' && TakesColon(word, s, i) then Escaped else Text(s[i])
  }

  /** The pieces from here on, as the loop makes them: it looks one character ahead inside a literal. */
  function Pieces(word: Words, s: string, i: nat, quote: Option<char>, count: nat): seq<Piece>
    requires i <= |s|
    decreases |s| - i
  {
    if i == |s| then []
    else if quote.Some? && s[i] == quote.value && i + 1 < |s| && s[i + 1] == quote.value then
      [Text(s[i]), Text(s[i])] + Pieces(word, s, i + 2, quote, count)
    else if quote.None? && Marks(s, i) then
      [Slot(count)] + Pieces(word, s, i + MarkLength(s, i), None, count + 1)
    else [Kept(word, s, i)] + Pieces(word, s, i + 1, NextQuote(s[i], quote), count)
  }

  /** The quote state after the character here, when no placeholder stands here. */
  function NextQuote(c: char, quote: Option<char>): Option<char> {
    if quote.Some? then (if c == quote.value then None else quote)
    else if IsQuote(c) then Some(c) else None
  }

  function Decimal(n: nat): (d: string)
    ensures |d| > 0 && forall c <- d :: c in DIGITS
  {
    if n < 10 then [DIGITS[n]] else Decimal(n / 10) + [DIGITS[n % 10]]
  }

  function Name(n: nat): string {
    "p" + Decimal(n)
  }

  function RenderOne(p: Piece): string {
    match p
    case Text(c) => [c]
    case Escaped => "\\:"
    case Slot(n) => ":" + Name(n)
  }

  function Render(pieces: seq<Piece>): string {
    if pieces == [] then [] else RenderOne(pieces[0]) + Render(pieces[1..])
  }

  // ---------- erasing gives the query back ----------

  function EraseOne(p: Piece): Token {
    match p
    case Text(c) => Char(c)
    case Escaped => Char(':')
    case Slot(_) => Placeholder
  }

  function Erased(pieces: seq<Piece>): seq<Token> {
    if pieces == [] then [] else [EraseOne(pieces[0])] + Erased(pieces[1..])
  }

  /**
   Escapes taken back and parameters read as placeholders, the output is the query:
   no parameter stands inside a literal, and none is missing outside.
   */
  lemma {:induction false} ErasingGivesTheQuery(word: Words, s: string, i: nat, quote: Option<char>, count: nat)
    requires i <= |s| && (quote.Some? ==> IsQuote(quote.value))
    ensures Erased(Pieces(word, s, i, quote, count)) == Meaning(s, i, quote)
    decreases |s| - i
  {
    if i == |s| {
    } else if quote.Some? && s[i] == quote.value && i + 1 < |s| && s[i + 1] == quote.value {
      var rest := Pieces(word, s, i + 2, quote, count);
      ErasingGivesTheQuery(word, s, i + 2, quote, count);
      var all := [Text(s[i]), Text(s[i])] + rest;
      assert all[1..] == [Text(s[i])] + rest && all[1..][1..] == rest;
      assert Meaning(s, i, quote) == [Char(s[i])] + Meaning(s, i + 1, None);
    } else if quote.None? && Marks(s, i) {
      ErasingGivesTheQuery(word, s, i + MarkLength(s, i), None, count + 1);
    } else {
      ErasingGivesTheQuery(word, s, i + 1, NextQuote(s[i], quote), count);
    }
  }

  // ---------- the parameters are numbered in order ----------

  function Slots(pieces: seq<Piece>): seq<nat> {
    if pieces == [] then []
    else (if pieces[0].Slot? then [pieces[0].n] else []) + Slots(pieces[1..])
  }

  lemma SlotsAfter(p: Piece, rest: seq<Piece>)
    ensures Slots([p] + rest) == (if p.Slot? then [p.n] else []) + Slots(rest)
    ensures !p.Slot? ==> Slots([p] + rest) == Slots(rest)
  {
    assert ([p] + rest)[1..] == rest;
  }

  /** m numbers from count upwards. */
  function From(count: nat, m: nat): seq<nat>
    decreases m
  {
    if m == 0 then [] else [count] + From(count + 1, m - 1)
  }

  lemma {:induction false} FromAt(count: nat, m: nat)
    ensures |From(count, m)| == m && forall k :: 0 <= k < m ==> From(count, m)[k] == count + k
    decreases m
  {
    if m > 0 {
      FromAt(count + 1, m - 1);
    }
  }

  lemma {:induction false} SlotsAreCounted(word: Words, s: string, i: nat, quote: Option<char>, count: nat)
    requires i <= |s|
    ensures var slots := Slots(Pieces(word, s, i, quote, count)); slots == From(count, |slots|)
    decreases |s| - i
  {
    if i == |s| {
    } else if quote.Some? && s[i] == quote.value && i + 1 < |s| && s[i + 1] == quote.value {
      var rest := Pieces(word, s, i + 2, quote, count);
      SlotsAreCounted(word, s, i + 2, quote, count);
      SlotsAfter(Text(s[i]), rest);
      SlotsAfter(Text(s[i]), [Text(s[i])] + rest);
      assert [Text(s[i]), Text(s[i])] + rest == [Text(s[i])] + ([Text(s[i])] + rest);
    } else if quote.None? && Marks(s, i) {
      SlotsAreCounted(word, s, i + MarkLength(s, i), None, count + 1);
      SlotsAfter(Slot(count), Pieces(word, s, i + MarkLength(s, i), None, count + 1));
    } else {
      var next := NextQuote(s[i], quote);
      SlotsAreCounted(word, s, i + 1, next, count);
      SlotsAfter(Kept(word, s, i), Pieces(word, s, i + 1, next, count));
    }
  }

  lemma {:induction false} SlotsAreErased(pieces: seq<Piece>)
    ensures |Slots(pieces)| == Count(Erased(pieces))
  {
    if pieces != [] {
      SlotsAreErased(pieces[1..]);
    }
  }

  /** The parameters of the output are 0 to n-1 in order, n being the query's placeholders outside literals. */
  lemma NumberedInOrder(word: Words, s: string)
    ensures Slots(Pieces(word, s, 0, None, 0)) == seq(Count(Meaning(s, 0, None)), k => k)
  {
    var pieces := Pieces(word, s, 0, None, 0);
    SlotsAreCounted(word, s, 0, None, 0);
    FromAt(0, |Slots(pieces)|);
    SlotsAreErased(pieces);
    ErasingGivesTheQuery(word, s, 0, None, 0);
  }

  // ---------- reading the output back ----------

  /** How many word characters stand first. */
  function Run(word: Words, s: string): (n: nat)
    ensures n <= |s| && (forall k :: 0 <= k < n ==> word(s[k])) && (n < |s| ==> !word(s[n]))
  {
    if s == [] || !word(s[0]) then 0 else 1 + Run(word, s[1..])
  }

  datatype Read = Plain(c: char) | Unescaped | Bind(name: string)

  /**
   How a reader of bind parameters differs from others: the characters after which
   a colon opens a parameter, and whether it looks ahead, so that no colon may
   follow a name and one followed by a colon is read a character shorter.
   */
  datatype Style = Style(opens: char -> bool, ahead: bool)

  /** After a colon or a backslash a colon opens nothing, and all digits are alike. */
  ghost predicate Fair(style: Style) {
    !style.opens(':') && !style.opens('\\') && forall d <- DIGITS :: style.opens(d) == style.opens('0')
  }

  /** How long a name standing here is read. */
  function NameLength(word: Words, ahead: bool, s: string): (n: nat)
    ensures n <= |s|
  {
    var r := Run(word, s);
    if ahead && 0 < r < |s| && s[r] == ':' then r - 1 else r
  }

  predicate Opened(style: Style, before: Option<char>) {
    before.None? || style.opens(before.value)
  }

  /** An escaped colon is a colon; a colon that is let open and has a name behind it is that parameter. */
  function Scan(word: Words, style: Style, before: Option<char>, s: string): seq<Read>
    decreases |s|
  {
    if s == [] then []
    else if "\\:" <= s then [Unescaped] + Scan(word, style, Some(':'), s[2..])
    else if s[0] == ':' && Opened(style, before) && NameLength(word, style.ahead, s[1..]) > 0 then
      var n := 1 + NameLength(word, style.ahead, s[1..]);
      [Bind(s[1..n])] + Scan(word, style, Some(s[n - 1]), s[n..])
    else [Plain(s[0])] + Scan(word, style, Some(s[0]), s[1..])
  }

  function ReadOne(p: Piece): Read {
    match p
    case Text(c) => Plain(c)
    case Escaped => Unescaped
    case Slot(n) => Bind(Name(n))
  }

  function ReadAll(pieces: seq<Piece>): seq<Read> {
    if pieces == [] then [] else [ReadOne(pieces[0])] + ReadAll(pieces[1..])
  }

  /** The character an output ends with before the pieces still to come. */
  function LastOf(p: Piece): char {
    RenderOne(p)[|RenderOne(p)| - 1]
  }

  predicate WordFirst(word: Words, s: string) {
    s != [] && word(s[0])
  }

  /** A piece of text between these two is no parameter. */
  predicate Tidy(word: Words, style: Style, before: Option<char>, p: Piece, after: string) {
    p == Text(':') ==> !Opened(style, before) || !WordFirst(word, after)
  }

  predicate AllTidy(word: Words, style: Style, before: Option<char>, pieces: seq<Piece>)
    decreases |pieces|
  {
    pieces == []
    || (&& Tidy(word, style, before, pieces[0], Render(pieces[1..]))
        && AllTidy(word, style, Some(LastOf(pieces[0])), pieces[1..]))
  }

  /** A parameter between these two is read under its own name. */
  predicate Clear(word: Words, style: Style, before: Option<char>, p: Piece, after: string) {
    p.Slot? ==> Opened(style, before) && NameLength(word, style.ahead, Name(p.n) + after) == |Name(p.n)|
  }

  predicate AllClear(word: Words, style: Style, before: Option<char>, pieces: seq<Piece>)
    decreases |pieces|
  {
    pieces == []
    || (&& Clear(word, style, before, pieces[0], Render(pieces[1..]))
        && AllClear(word, style, Some(LastOf(pieces[0])), pieces[1..]))
  }

  lemma {:induction false} RunOfWord(word: Words, a: string, b: string)
    requires forall c <- a :: word(c)
    ensures Run(word, a + b) == |a| + Run(word, b)
  {
    if a == [] {
      assert a + b == b;
    } else {
      assert (a + b)[1..] == a[1..] + b;
      RunOfWord(word, a[1..], b);
    }
  }

  lemma NameIsWord(word: Words, n: nat)
    requires Usual(word)
    ensures |Name(n)| >= 2 && forall c <- Name(n) :: word(c)
  {
  }

  predicate ColonFirst(s: string) {
    s != [] && s[0] == ':'
  }

  /** Text and escapes are read as they stand, but for a backslash before a colon. */
  lemma ReadsText(word: Words, style: Style, before: Option<char>, p: Piece, rest: string)
    requires !p.Slot? && Tidy(word, style, before, p, rest) && !(p == Text('\\') && ColonFirst(rest))
    ensures Scan(word, style, before, RenderOne(p) + rest)
         == [ReadOne(p)] + Scan(word, style, Some(LastOf(p)), rest)
  {
    var s := RenderOne(p) + rest;
    if p.Text? {
      assert s[0] == p.c && s[1..] == rest && !("\\:" <= s);
    } else {
      assert s == "\\:" + rest && s[2..] == rest;
    }
  }

  lemma ScanOpened(word: Words, style: Style, before: Option<char>, s: string)
    requires s != [] && s[0] == ':' && Opened(style, before) && NameLength(word, style.ahead, s[1..]) > 0
    ensures var n := 1 + NameLength(word, style.ahead, s[1..]);
      Scan(word, style, before, s) == [Bind(s[1..n])] + Scan(word, style, Some(s[n - 1]), s[n..])
  {
    hide NameLength, Opened;
  }

  /** An opened colon takes what NameLength allows. */
  lemma ReadsName(word: Words, style: Style, before: Option<char>, t: string)
    requires Opened(style, before) && NameLength(word, style.ahead, t) > 0
    ensures var k := NameLength(word, style.ahead, t);
      Scan(word, style, before, ":" + t) == [Bind(t[..k])] + Scan(word, style, Some(t[k - 1]), t[k..])
  {
    hide *;
    var s, n := ":" + t, 1 + NameLength(word, style.ahead, t);
    assert s[0] == ':' && s[1..] == t;
    ScanOpened(word, style, before, s);
    assert s[1..n] == t[..n - 1] && s[n..] == t[n - 1..] && s[n - 1] == t[n - 2];
  }

  /** A name is read to its end, exactly when this is what follows. */
  lemma NameEndsIff(word: Words, ahead: bool, name: string, rest: string)
    requires |name| >= 2 && forall c <- name :: word(c)
    ensures var k, r := NameLength(word, ahead, name + rest), Run(word, rest);
      && k >= |name| - 1
      && (k == |name| <==> if ahead && r < |rest| && rest[r] == ':' then r == 1 else r == 0)
  {
    RunOfWord(word, name, rest);
    var t, r := name + rest, Run(word, rest);
    assert r < |rest| ==> t[|name| + r] == rest[r];
  }

  function Binds(read: seq<Read>): seq<string> {
    if read == [] then []
    else (if read[0].Bind? then [read[0].name] else []) + Binds(read[1..])
  }

  lemma BindsCons(r: Read, rest: seq<Read>)
    ensures Binds([r] + rest) == (if r.Bind? then [r.name] else []) + Binds(rest)
    ensures !r.Bind? ==> Binds([r] + rest) == Binds(rest)
  {
    assert ([r] + rest)[1..] == rest;
  }

  lemma WordIsPlain(word: Words, style: Style, before: Option<char>, c: char, rest: string)
    requires Usual(word) && word(c)
    ensures Scan(word, style, before, [c] + rest) == [Plain(c)] + Scan(word, style, Some(c), rest)
  {
    hide NameLength, Opened;
    var s := [c] + rest;
    assert s[0] == c && s[1..] == rest;
  }

  /** Word characters open nothing. */
  lemma {:induction false} WordsBindNothing(word: Words, style: Style, before: Option<char>, w: string, rest: string)
    requires Usual(word) && forall c <- w :: word(c)
    ensures Binds(Scan(word, style, before, w + rest))
         == Binds(Scan(word, style, if w == [] then before else Some(w[|w| - 1]), rest))
    decreases |w|
  {
    if w == [] {
      assert w + rest == rest;
    } else {
      var c, tail := w[0], w[1..];
      assert c in w && w + rest == [c] + (tail + rest);
      WordIsPlain(word, style, before, c, tail + rest);
      hide Scan, Usual;
      BindsCons(Plain(c), Scan(word, style, Some(c), tail + rest));
      WordsBindNothing(word, style, Some(c), tail, rest);
    }
  }

  /** The name a parameter is read under, if it is read as one. */
  function SlotRead(word: Words, style: Style, before: Option<char>, n: nat, after: string): seq<string> {
    if Opened(style, before)
    then [(Name(n) + after)[..NameLength(word, style.ahead, Name(n) + after)]]
    else []
  }

  function SlotReads(word: Words, style: Style, before: Option<char>, pieces: seq<Piece>): seq<string>
    decreases |pieces|
  {
    if pieces == [] then []
    else
      (if pieces[0].Slot? then SlotRead(word, style, before, pieces[0].n, Render(pieces[1..])) else [])
      + SlotReads(word, style, Some(LastOf(pieces[0])), pieces[1..])
  }

  lemma SlotOpened(word: Words, style: Style, before: Option<char>, name: string, rest: string)
    requires Usual(word) && |name| >= 2 && (forall c <- name :: word(c)) && Opened(style, before)
    ensures var t := name + rest;
      Binds(Scan(word, style, before, ":" + t))
      == [t[..NameLength(word, style.ahead, t)]] + Binds(Scan(word, style, Some(name[|name| - 1]), rest))
  {
    hide Scan, NameLength, Usual, Binds, Opened;
    var t := name + rest;
    NameEndsIff(word, style.ahead, name, rest);
    ReadsName(word, style, before, t);
    var k := NameLength(word, style.ahead, t);
    BindsCons(Bind(t[..k]), Scan(word, style, Some(t[k - 1]), t[k..]));
    BackAtTheRest(word, style, name, rest, k);
  }

  lemma SlotNotOpened(word: Words, style: Style, before: Option<char>, name: string, rest: string)
    requires Usual(word) && name != [] && (forall c <- name :: word(c)) && !Opened(style, before)
    ensures Binds(Scan(word, style, before, ":" + (name + rest)))
         == Binds(Scan(word, style, Some(name[|name| - 1]), rest))
  {
    var t := name + rest;
    assert (":" + t)[0] == ':' && (":" + t)[1..] == t;
    assert Scan(word, style, before, ":" + t) == [Plain(':')] + Scan(word, style, Some(':'), t);
    hide Scan, NameLength, Usual, Binds, Opened;
    BindsCons(Plain(':'), Scan(word, style, Some(':'), t));
    WordsBindNothing(word, style, Some(':'), name, rest);
  }

  /** However a parameter is read, the reader is at the text behind it again. */
  lemma SlotThenRest(word: Words, style: Style, before: Option<char>, n: nat, rest: string)
    requires Usual(word)
    ensures Binds(Scan(word, style, before, RenderOne(Slot(n)) + rest))
         == SlotRead(word, style, before, n, rest) + Binds(Scan(word, style, Some(LastOf(Slot(n))), rest))
  {
    var name := Name(n);
    NameIsWord(word, n);
    assert RenderOne(Slot(n)) == ":" + name && LastOf(Slot(n)) == name[|name| - 1];
    assert (":" + name) + rest == ":" + (name + rest);
    hide Name, Scan, NameLength, RenderOne, LastOf, Usual, Binds, Opened;
    if Opened(style, before) {
      SlotOpened(word, style, before, name, rest);
    } else {
      SlotNotOpened(word, style, before, name, rest);
    }
  }

  lemma BackAtTheRest(word: Words, style: Style, name: string, rest: string, k: nat)
    requires Usual(word) && name != [] && (forall c <- name :: word(c))
    requires 0 < k && k == NameLength(word, style.ahead, name + rest) && k >= |name| - 1
    ensures Binds(Scan(word, style, Some((name + rest)[k - 1]), (name + rest)[k..]))
         == Binds(Scan(word, style, Some(name[|name| - 1]), rest))
  {
    var t := name + rest;
    if k < |name| {
      var d := name[k..];
      assert d == [name[|name| - 1]] && t[k..] == d + rest && t[k - 1] == name[k - 1];
      WordsBindNothing(word, style, Some(name[k - 1]), d, rest);
    } else {
      var m := k - |name|;
      var w, tail := rest[..m], rest[m..];
      RunOfWord(word, name, rest);
      assert rest == w + tail && t[k..] == tail;
      WordsBindNothing(word, style, Some(name[|name| - 1]), w, tail);
      assert m > 0 ==> t[k - 1] == w[m - 1];
    }
  }

  /** A colon behind a backslash opens nothing, whether or not the two are read as one. */
  lemma BackslashBindsNothing(word: Words, style: Style, before: Option<char>, rest: string)
    requires !style.opens('\\') && ColonFirst(rest)
    ensures Binds(Scan(word, style, before, "\\" + rest)) == Binds(Scan(word, style, Some('\\'), rest))
  {
    hide NameLength;
    var s, behind := "\\" + rest, Scan(word, style, Some(':'), rest[1..]);
    assert "\\:" <= s && s[2..] == rest[1..];
    assert Scan(word, style, before, s) == [Unescaped] + behind;
    assert Scan(word, style, Some('\\'), rest) == [Plain(':')] + behind;
    BindsCons(Unescaped, behind);
    BindsCons(Plain(':'), behind);
  }

  /** What any such reader finds in a tidy output is what it makes of each parameter. */
  lemma {:induction false} FindsTheSlots(word: Words, style: Style, before: Option<char>, pieces: seq<Piece>)
    requires Usual(word) && Fair(style) && AllTidy(word, style, before, pieces)
    ensures Binds(Scan(word, style, before, Render(pieces))) == SlotReads(word, style, before, pieces)
    decreases |pieces|
  {
    if pieces != [] {
      var p, rest := pieces[0], Render(pieces[1..]);
      FindsTheSlots(word, style, Some(LastOf(p)), pieces[1..]);
      hide LastOf, SlotRead, Scan, RenderOne;
      if p.Slot? {
        SlotThenRest(word, style, before, p.n, rest);
      } else if p == Text('\\') && ColonFirst(rest) {
        BackslashIsText();
        BackslashBindsNothing(word, style, before, rest);
      } else {
        ReadsText(word, style, before, p, rest);
        BindsCons(ReadOne(p), Scan(word, style, Some(LastOf(p)), rest));
      }
    }
  }

  function Names(slots: seq<nat>): seq<string> {
    if slots == [] then [] else [Name(slots[0])] + Names(slots[1..])
  }

  lemma {:induction false} AtMostTheSlots(word: Words, style: Style, before: Option<char>, pieces: seq<Piece>)
    ensures |SlotReads(word, style, before, pieces)| <= |Names(Slots(pieces))|
    decreases |pieces|
  {
    if pieces != [] {
      AtMostTheSlots(word, style, Some(LastOf(pieces[0])), pieces[1..]);
      NamesAfter(pieces);
    }
  }

  lemma NamesAfter(pieces: seq<Piece>)
    requires pieces != []
    ensures Names(Slots(pieces))
         == (if pieces[0].Slot? then [Name(pieces[0].n)] else []) + Names(Slots(pieces[1..]))
  {
    if pieces[0].Slot? {
      assert Slots(pieces)[1..] == Slots(pieces[1..]);
    } else {
      assert Slots(pieces) == Slots(pieces[1..]);
    }
  }

  lemma ConsEqualIff(x: seq<string>, a: seq<string>, y: string, b: seq<string>)
    requires |x| <= 1 && |a| <= |b|
    ensures x + a == [y] + b <==> x == [y] && a == b
  {
    if x + a == [y] + b {
      assert |x| == 1;
      assert (x + a)[0] == x[0] && (x + a)[1..] == a && ([y] + b)[1..] == b;
    }
  }

  /** The names read are the parameters' own exactly when each stands clear. */
  lemma {:induction false} NamedRightIff(word: Words, style: Style, before: Option<char>, pieces: seq<Piece>)
    ensures SlotReads(word, style, before, pieces) == Names(Slots(pieces)) <==> AllClear(word, style, before, pieces)
    decreases |pieces|
  {
    if pieces != [] {
      var p, rest, last := pieces[0], pieces[1..], Some(LastOf(pieces[0]));
      NamedRightIff(word, style, last, rest);
      AtMostTheSlots(word, style, last, rest);
      NamesAfter(pieces);
      var found := SlotReads(word, style, last, rest);
      assert [] + found == found && [] + Names(Slots(rest)) == Names(Slots(rest));
      if p.Slot? {
        hide Name, NameLength, Opened;
        assert p == Slot(p.n);
        ReadAsNamedIff(word, style, before, p.n, Render(rest));
        ConsEqualIff(SlotRead(word, style, before, p.n, Render(rest)), found, Name(p.n), Names(Slots(rest)));
      }
    }
  }

  lemma ReadAsNamedIff(word: Words, style: Style, before: Option<char>, n: nat, after: string)
    ensures |SlotRead(word, style, before, n, after)| <= 1
    ensures SlotRead(word, style, before, n, after) == [Name(n)] <==> Clear(word, style, before, Slot(n), after)
  {
    hide Name;
    var t := Name(n) + after;
    assert t[..|Name(n)|] == Name(n);
  }

  lemma BackslashIsText()
    ensures RenderOne(Text('\\')) == "\\" && LastOf(Text('\\')) == '\\'
  {
  }

  /** A backslash with a colon behind it that was let stand is read as an escape. */
  predicate Merges(pieces: seq<Piece>) {
    |pieces| >= 2 && pieces[0] == Text('\\') && pieces[1] == Text(':')
  }

  function Heard(pieces: seq<Piece>): seq<Read>
    decreases |pieces|
  {
    if pieces == [] then []
    else if Merges(pieces) then [Unescaped] + Heard(pieces[2..])
    else [ReadOne(pieces[0])] + Heard(pieces[1..])
  }

  /** When each parameter stands clear, the output is read back piece by piece. */
  lemma {:induction false} ClearIsReadBack(word: Words, style: Style, before: Option<char>, pieces: seq<Piece>)
    requires Usual(word) && Fair(style) && AllTidy(word, style, before, pieces) && AllClear(word, style, before, pieces)
    ensures Scan(word, style, before, Render(pieces)) == Heard(pieces)
    decreases |pieces|
  {
    hide Usual, Tidy, Fair;
    if Merges(pieces) {
      hide Scan;
      var rest := pieces[2..];
      assert pieces[1..][1..] == rest && LastOf(Text(':')) == ':';
      ClearIsReadBack(word, style, Some(':'), rest);
      assert Render(pieces[1..]) == ":" + Render(rest);
      assert Render(pieces) == "\\" + (":" + Render(rest));
      ReadsEscape(word, style, before, Render(rest));
    } else if pieces != [] {
      hide Scan;
      var p, rest := pieces[0], Render(pieces[1..]);
      ClearIsReadBack(word, style, Some(LastOf(p)), pieces[1..]);
      if p.Slot? {
        ReadsClear(word, style, before, p.n, rest);
      } else {
        NoColonBehind(word, style, before, pieces);
        ReadsText(word, style, before, p, rest);
      }
    }
  }

  lemma ReadsEscape(word: Words, style: Style, before: Option<char>, rest: string)
    ensures Scan(word, style, before, "\\" + (":" + rest)) == [Unescaped] + Scan(word, style, Some(':'), rest)
  {
    var s := "\\" + (":" + rest);
    assert "\\:" <= s && s[2..] == rest;
  }

  lemma NoColonBehind(word: Words, style: Style, before: Option<char>, pieces: seq<Piece>)
    requires Fair(style) && pieces != [] && !Merges(pieces) && AllClear(word, style, before, pieces)
    ensures pieces[0] == Text('\\') ==> !ColonFirst(Render(pieces[1..]))
  {
    if pieces[0] == Text('\\') && |pieces| > 1 {
      assert LastOf(pieces[0]) == '\\' && pieces[1..][0] == pieces[1];
      assert Clear(word, style, Some('\\'), pieces[1], Render(pieces[1..][1..]));
      assert Render(pieces[1..])[0] == RenderOne(pieces[1])[0];
    }
  }

  lemma ReadsWhole(word: Words, style: Style, before: Option<char>, name: string, rest: string)
    requires name != [] && Opened(style, before) && NameLength(word, style.ahead, name + rest) == |name|
    ensures Scan(word, style, before, ":" + (name + rest))
         == [Bind(name)] + Scan(word, style, Some(name[|name| - 1]), rest)
  {
    hide *;
    var t := name + rest;
    assert t[..|name|] == name && t[|name|..] == rest && t[|name| - 1] == name[|name| - 1];
    ReadsName(word, style, before, t);
  }

  lemma ReadsClear(word: Words, style: Style, before: Option<char>, n: nat, rest: string)
    requires Usual(word) && Clear(word, style, before, Slot(n), rest)
    ensures Scan(word, style, before, RenderOne(Slot(n)) + rest)
         == [Bind(Name(n))] + Scan(word, style, Some(LastOf(Slot(n))), rest)
  {
    hide Scan, NameLength, Opened, Name;
    var name := Name(n);
    NameIsWord(word, n);
    ReadsWhole(word, style, before, name, rest);
    assert (":" + name) + rest == ":" + (name + rest);
  }

  // ---------- queries whose output is clear ----------

  /** The output has a colon here: a parameter's own, or one that was not escaped. */
  predicate ColonAt(word: Words, s: string, i: nat) {
    Marks(s, i) || (i < |s| && s[i] == ':' && !TakesColon(word, s, i))
  }

  /**
   The name of a placeholder that ends here is read to its end: no word character
   follows. For a reader that looks ahead no colon follows either, or one word
   character and a colon do.
   */
  predicate Closes(word: Words, ahead: bool, s: string, i: nat)
    requires i <= |s|
  {
    var r := Run(word, s[i..]);
    if ahead && ColonAt(word, s, i + r) then r == 1 else r == 0
  }

  /** What stands before here, a placeholder when `slot`, lets a colon open. */
  predicate FreeBefore(style: Style, s: string, i: nat, slot: bool)
    requires i <= |s|
  {
    if slot then style.opens('0') else i == 0 || style.opens(s[i - 1])
  }

  /** Each placeholder outside a literal stands apart from what is around it. */
  predicate Apart(word: Words, style: Style, s: string, i: nat, quote: Option<char>, slot: bool)
    requires i <= |s|
    decreases |s| - i
  {
    i == |s|
    || (if quote.Some? then Apart(word, style, s, i + 1, if s[i] == quote.value then None else quote, false)
        else if IsQuote(s[i]) then Apart(word, style, s, i + 1, Some(s[i]), false)
        else if Marks(s, i) then
          FreeBefore(style, s, i, slot) && Closes(word, style.ahead, s, i + MarkLength(s, i))
          && Apart(word, style, s, i + MarkLength(s, i), None, true)
        else Apart(word, style, s, i + 1, None, false))
  }

  /** What the output ends with here: a digit when a placeholder just ended, the query's last character otherwise. */
  predicate Follows(s: string, i: nat, slot: bool, before: Option<char>)
    requires i <= |s|
  {
    if slot then i > 0 && s[i - 1] != ':' && before.Some? && before.value in DIGITS
    else if i == 0 then before.None?
    else before == Some(s[i - 1])
  }

  lemma OpenedIff(style: Style, s: string, i: nat, slot: bool, before: Option<char>)
    requires i <= |s| && Fair(style) && Follows(s, i, slot, before)
    ensures Opened(style, before) <==> FreeBefore(style, s, i, slot)
  {
  }

  /** Word characters go into the output as they are. */
  lemma WordIsKept(word: Words, s: string, i: nat, count: nat)
    requires Usual(word) && i < |s| && word(s[i])
    ensures Render(Pieces(word, s, i, None, count)) == [s[i]] + Render(Pieces(word, s, i + 1, None, count))
  {
    var rest := Pieces(word, s, i + 1, None, count);
    assert Pieces(word, s, i, None, count) == [Text(s[i])] + rest;
    assert ([Text(s[i])] + rest)[1..] == rest;
  }

  /** Where the query has no word character, its output has none, and a colon only where one is not escaped. */
  lemma HeadIsNoWord(word: Words, s: string, i: nat, quote: Option<char>, count: nat)
    requires Usual(word) && i <= |s| && (i < |s| ==> !word(s[i]))
    ensures var out := Render(Pieces(word, s, i, quote, count));
      !WordFirst(word, out) && (quote.None? ==> (out != [] && out[0] == ':' <==> ColonAt(word, s, i)))
  {
  }

  lemma {:induction false} RunIsKept(word: Words, s: string, i: nat, count: nat)
    requires Usual(word) && i <= |s|
    ensures var out, r := Render(Pieces(word, s, i, None, count)), Run(word, s[i..]);
      && Run(word, out) == r
      && (r < |out| && out[r] == ':' <==> ColonAt(word, s, i + r))
    decreases |s| - i
  {
    hide Usual, Pieces, Render, ColonAt;
    var out := Render(Pieces(word, s, i, None, count));
    if i < |s| && word(s[i]) {
      WordIsKept(word, s, i, count);
      RunIsKept(word, s, i + 1, count);
      RunCons(word, s[i], Render(Pieces(word, s, i + 1, None, count)));
      assert s[i..] == [s[i]] + s[i + 1..];
      RunCons(word, s[i], s[i + 1..]);
    } else {
      HeadIsNoWord(word, s, i, None, count);
      assert Run(word, out) == 0 && Run(word, s[i..]) == 0;
    }
  }

  lemma RunCons(word: Words, c: char, rest: string)
    requires word(c)
    ensures Run(word, [c] + rest) == 1 + Run(word, rest)
  {
    assert ([c] + rest)[1..] == rest;
  }

  lemma KeptIsTidy(word: Words, style: Style, s: string, i: nat, slot: bool, before: Option<char>,
                   quote: Option<char>, count: nat)
    requires Usual(word) && Fair(style) && i < |s| && Follows(s, i, slot, before)
    ensures var p := Kept(word, s, i);
      LastOf(p) == s[i] && Tidy(word, style, before, p, Render(Pieces(word, s, i + 1, quote, count)))
  {
    if s[i] == ':' && !TakesColon(word, s, i) && (i == 0 || s[i - 1] != ':') {
      HeadIsNoWord(word, s, i + 1, quote, count);
    }
  }

  lemma NameClosesIff(word: Words, ahead: bool, s: string, j: nat, name: string, count: nat)
    requires Usual(word) && j <= |s| && |name| >= 2 && forall c <- name :: word(c)
    ensures NameLength(word, ahead, name + Render(Pieces(word, s, j, None, count))) == |name|
       <==> Closes(word, ahead, s, j)
  {
    RunIsKept(word, s, j, count);
    hide NameLength, Pieces, Render, ColonAt, Usual;
    NameEndsIff(word, ahead, name, Render(Pieces(word, s, j, None, count)));
  }

  lemma SlotIsClearIff(word: Words, style: Style, s: string, i: nat, slot: bool, before: Option<char>, j: nat,
                       count: nat)
    requires Usual(word) && Fair(style) && i <= j <= |s| && Follows(s, i, slot, before)
    ensures Clear(word, style, before, Slot(count), Render(Pieces(word, s, j, None, count + 1)))
       <==> FreeBefore(style, s, i, slot) && Closes(word, style.ahead, s, j)
  {
    OpenedIff(style, s, i, slot, before);
    NameIsWord(word, count);
    hide Name, NameLength, Pieces, Render, Opened, FreeBefore, Follows, Fair, Closes, Usual;
    NameClosesIff(word, style.ahead, s, j, Name(count), count + 1);
  }

  lemma SlotEndsInADigit(n: nat)
    ensures LastOf(Slot(n)) in DIGITS
  {
    var d := Decimal(n);
    assert LastOf(Slot(n)) == d[|d| - 1] && d[|d| - 1] in d;
  }

  lemma PieceCons(word: Words, style: Style, before: Option<char>, p: Piece, rest: seq<Piece>)
    ensures AllTidy(word, style, before, [p] + rest)
       <==> Tidy(word, style, before, p, Render(rest)) && AllTidy(word, style, Some(LastOf(p)), rest)
    ensures AllClear(word, style, before, [p] + rest)
       <==> Clear(word, style, before, p, Render(rest)) && AllClear(word, style, Some(LastOf(p)), rest)
  {
    assert ([p] + rest)[1..] == rest;
  }

  /** The output is tidy, and its parameters stand clear exactly when the query's placeholders stand apart. */
  lemma {:induction false} OutputIsClearIff(word: Words, style: Style, s: string, i: nat, slot: bool,
                                            before: Option<char>, quote: Option<char>, count: nat)
    requires Usual(word) && Fair(style) && i <= |s| && Follows(s, i, slot, before)
    requires quote.Some? ==> IsQuote(quote.value) && !slot
    ensures AllTidy(word, style, before, Pieces(word, s, i, quote, count))
    ensures AllClear(word, style, before, Pieces(word, s, i, quote, count)) <==> Apart(word, style, s, i, quote, slot)
    decreases |s| - i
  {
    hide Usual, Fair, Tidy, Clear, Render, Kept, LastOf, FreeBefore, Closes, AllTidy, AllClear;
    if i == |s| {
      NothingIsClear(word, style, before);
    } else if quote.Some? && s[i] == quote.value && i + 1 < |s| && s[i + 1] == quote.value {
      OutputIsClearIff(word, style, s, i + 2, false, Some(s[i]), quote, count);
      QuotesAreClear(word, style, before, s[i], Pieces(word, s, i + 2, quote, count));
    } else if quote.None? && Marks(s, i) {
      var j := i + MarkLength(s, i);
      SlotEndsInADigit(count);
      OutputIsClearIff(word, style, s, j, true, Some(LastOf(Slot(count))), None, count + 1);
      SlotIsClearIff(word, style, s, i, slot, before, j, count);
      SlotIsTidy(word, style, before, count, Render(Pieces(word, s, j, None, count + 1)));
      PieceCons(word, style, before, Slot(count), Pieces(word, s, j, None, count + 1));
    } else {
      var next := NextQuote(s[i], quote);
      OutputIsClearIff(word, style, s, i + 1, false, Some(s[i]), next, count);
      KeptIsTidy(word, style, s, i, slot, before, next, count);
      TextIsClear(word, style, s, i, before, Render(Pieces(word, s, i + 1, next, count)));
      PieceCons(word, style, before, Kept(word, s, i), Pieces(word, s, i + 1, next, count));
    }
  }

  lemma NothingIsClear(word: Words, style: Style, before: Option<char>)
    ensures AllTidy(word, style, before, []) && AllClear(word, style, before, [])
  {
  }

  lemma SlotIsTidy(word: Words, style: Style, before: Option<char>, n: nat, after: string)
    ensures Tidy(word, style, before, Slot(n), after)
  {
  }

  lemma TextIsClear(word: Words, style: Style, s: string, i: nat, before: Option<char>, after: string)
    requires i < |s|
    ensures Clear(word, style, before, Kept(word, s, i), after)
  {
  }

  lemma QuotesAreClear(word: Words, style: Style, before: Option<char>, quote: char, rest: seq<Piece>)
    requires IsQuote(quote)
    ensures AllTidy(word, style, before, [Text(quote), Text(quote)] + rest) <==> AllTidy(word, style, Some(quote), rest)
    ensures AllClear(word, style, before, [Text(quote), Text(quote)] + rest) <==> AllClear(word, style, Some(quote), rest)
  {
    QuoteIsText(word, style, Some(quote), quote, Render(rest));
    QuoteIsText(word, style, before, quote, Render([Text(quote)] + rest));
    hide AllTidy, AllClear, Tidy, Clear, LastOf, Render;
    PieceCons(word, style, Some(quote), Text(quote), rest);
    PieceCons(word, style, before, Text(quote), [Text(quote)] + rest);
    assert [Text(quote), Text(quote)] + rest == [Text(quote)] + ([Text(quote)] + rest);
  }

  lemma QuoteIsText(word: Words, style: Style, before: Option<char>, quote: char, after: string)
    requires IsQuote(quote)
    ensures Tidy(word, style, before, Text(quote), after) && Clear(word, style, before, Text(quote), after)
    ensures LastOf(Text(quote)) == quote
  {
  }

  /** What a reader's text says, its parameters read as placeholders. */
  function Said(read: seq<Read>): seq<Token> {
    if read == [] then []
    else
      [match read[0] case Plain(c) => Char(c) case Unescaped => Char(':') case Bind(_) => Placeholder]
      + Said(read[1..])
  }

  lemma {:induction false} SaidIsErased(pieces: seq<Piece>)
    ensures Said(ReadAll(pieces)) == Erased(pieces)
  {
    if pieces != [] {
      SaidIsErased(pieces[1..]);
    }
  }

  // ---------- backslashes ----------

  predicate Whole(pieces: seq<Piece>) {
    pieces == [] || (!Merges(pieces) && Whole(pieces[1..]))
  }

  /** Each backslash with a colon behind it is followed by an escape of the output's own. */
  predicate BackslashesStay(word: Words, s: string, i: nat) {
    forall k :: i <= k < |s| - 1 && s[k] == '\\' && s[k + 1] == ':' ==> TakesColon(word, s, k + 1)
  }

  lemma HeadIsColonIff(word: Words, s: string, i: nat, quote: Option<char>, count: nat)
    requires i <= |s| && (quote.Some? ==> IsQuote(quote.value))
    ensures var pieces := Pieces(word, s, i, quote, count);
      pieces != [] && pieces[0] == Text(':') <==> i < |s| && s[i] == ':' && !TakesColon(word, s, i)
  {
  }

  lemma WholeCons(p: Piece, rest: seq<Piece>)
    ensures Whole([p] + rest) <==> !(p == Text('\\') && rest != [] && rest[0] == Text(':')) && Whole(rest)
  {
    assert ([p] + rest)[1..] == rest;
  }

  lemma {:induction false} WholeIff(word: Words, s: string, i: nat, quote: Option<char>, count: nat)
    requires i <= |s| && (quote.Some? ==> IsQuote(quote.value))
    ensures Whole(Pieces(word, s, i, quote, count)) <==> BackslashesStay(word, s, i)
    decreases |s| - i
  {
    hide TakesColon, Whole;
    if i == |s| {
      NothingIsWhole();
    } else if quote.Some? && s[i] == quote.value && i + 1 < |s| && s[i + 1] == quote.value {
      var rest := Pieces(word, s, i + 2, quote, count);
      WholeIff(word, s, i + 2, quote, count);
      WholeCons(Text(s[i]), rest);
      WholeCons(Text(s[i]), [Text(s[i])] + rest);
      assert [Text(s[i]), Text(s[i])] + rest == [Text(s[i])] + ([Text(s[i])] + rest);
    } else if quote.None? && Marks(s, i) {
      WholeIff(word, s, i + MarkLength(s, i), None, count + 1);
      WholeCons(Slot(count), Pieces(word, s, i + MarkLength(s, i), None, count + 1));
    } else {
      var next := NextQuote(s[i], quote);
      WholeIff(word, s, i + 1, next, count);
      HeadIsColonIff(word, s, i + 1, next, count);
      WholeCons(Kept(word, s, i), Pieces(word, s, i + 1, next, count));
    }
  }

  lemma NothingIsWhole()
    ensures Whole([])
  {
  }

  lemma {:induction false} HeardIff(pieces: seq<Piece>)
    ensures |Heard(pieces)| <= |pieces| && (|Heard(pieces)| == |pieces| <==> Whole(pieces))
    ensures Whole(pieces) ==> Heard(pieces) == ReadAll(pieces)
    decreases |pieces|
  {
    if Merges(pieces) {
      HeardIff(pieces[2..]);
    } else if pieces != [] {
      HeardIff(pieces[1..]);
    }
  }

  lemma {:induction false} SaidAll(read: seq<Read>)
    ensures |Said(read)| == |read|
  {
    if read != [] {
      SaidAll(read[1..]);
    }
  }

  /** Every piece is said as it is meant exactly when no backslash is lost. */
  lemma SaidIffWhole(pieces: seq<Piece>)
    ensures Said(Heard(pieces)) == Erased(pieces) <==> Whole(pieces)
  {
    HeardIff(pieces);
    SaidAll(Heard(pieces));
    SaidAll(ReadAll(pieces));
    SaidIsErased(pieces);
    ReadsAll(pieces);
  }

  lemma {:induction false} ReadsAll(pieces: seq<Piece>)
    ensures |ReadAll(pieces)| == |pieces|
  {
    if pieces != [] {
      ReadsAll(pieces[1..]);
    }
  }

  /** What a reader finds in the query's output. */
  function ReadBack(word: Words, style: Style, s: string): seq<Read> {
    Scan(word, style, None, Render(Pieces(word, s, 0, None, 0)))
  }

  /** The parameters the output was given. */
  function Given(s: string): seq<string> {
    Names(seq(Count(Meaning(s, 0, None)), k => k))
  }

  /**
   Meaning is preserved, end to end on text: every reader of the output finds
   exactly the parameters p0 to p(n-1) if and only if the query's placeholders
   stand apart, and then reads everything else as the query if and only if no
   backslash of the query stands before a colon that is let stand.
   */
  lemma MeaningIsPreservedIff(word: Words, style: Style, s: string)
    requires Usual(word) && Fair(style)
    ensures Binds(ReadBack(word, style, s)) == Given(s) <==> Apart(word, style, s, 0, None, false)
    ensures Apart(word, style, s, 0, None, false) ==>
              (Said(ReadBack(word, style, s)) == Meaning(s, 0, None) <==> BackslashesStay(word, s, 0))
  {
    var pieces := Pieces(word, s, 0, None, 0);
    OutputIsClearIff(word, style, s, 0, false, None, None, 0);
    FindsTheSlots(word, style, None, pieces);
    NamedRightIff(word, style, None, pieces);
    NumberedInOrder(word, s);
    ErasingGivesTheQuery(word, s, 0, None, 0);
    if Apart(word, style, s, 0, None, false) {
      ClearIsReadBack(word, style, None, pieces);
      SaidIffWhole(pieces);
      WholeIff(word, s, 0, None, 0);
    }
  }

  // ---------- three readers ----------

  /** The code's own rule: a colon opens after anything but a colon. */
  const OWN := Style(c => c != ':' && c != '\\', false)

  /** A stricter reader: no word character may stand before the colon either. */
  function Strict(word: Words, ahead: bool): Style {
    Style(c => !word(c) && c != ':' && c != '\\', ahead)
  }

  /** By the code's own rule placeholders may stand side by side; a stricter reader loses the second. */
  lemma SideBySide(word: Words)
    requires Usual(word)
    ensures Binds(ReadBack(word, OWN, "??")) == Given("??")
    ensures Binds(ReadBack(word, Strict(word, false), "??")) != Given("??")
  {
    MarksAreApart(word);
    hide Apart, ReadBack, Given, Strict;
    MeaningIsPreservedIff(word, OWN, "??");
    MeaningIsPreservedIff(word, Strict(word, false), "??");
  }

  lemma MarksAreApart(word: Words)
    requires Usual(word)
    ensures Apart(word, OWN, "??", 0, None, false) && !Apart(word, Strict(word, false), "??", 0, None, false)
    ensures Fair(OWN) && Fair(Strict(word, false))
  {
    assert "??"[1..] == "?" && Run(word, "??"[1..]) == 0 && Run(word, "??"[2..]) == 0;
  }

  /** A cast behind a placeholder is read back, unless the reader looks ahead for a colon. */
  lemma CastBehindAPlaceholder(word: Words)
    requires Usual(word)
    ensures Binds(ReadBack(word, Strict(word, false), "?::int")) == Given("?::int")
    ensures Binds(ReadBack(word, Strict(word, true), "?::int")) != Given("?::int")
  {
    CastIsApart(word);
    hide Apart, ReadBack, Given, Strict;
    MeaningIsPreservedIff(word, Strict(word, false), "?::int");
    MeaningIsPreservedIff(word, Strict(word, true), "?::int");
  }

  lemma CastIsApart(word: Words)
    requires Usual(word)
    ensures Apart(word, Strict(word, false), "?::int", 0, None, false)
    ensures !Apart(word, Strict(word, true), "?::int", 0, None, false)
    ensures Fair(Strict(word, false)) && Fair(Strict(word, true))
  {
    var s := "?::int";
    assert s[0] == '?' && s[1] == ':' && s[2] == ':' && s[1..][0] == ':';
    assert Run(word, s[1..]) == 0 && ColonAt(word, s, 1);
    NoMoreMarks(word, Strict(word, false), s, 1);
  }

  /** A backslash before a colon that is let stand is not read back. */
  lemma BackslashIsLost(word: Words)
    requires Usual(word)
    ensures Binds(ReadBack(word, OWN, "\\:")) == Given("\\:")
    ensures Said(ReadBack(word, OWN, "\\:")) != Meaning("\\:", 0, None)
  {
    var s := "\\:";
    assert s[0] == '\\' && s[1] == ':' && !TakesColon(word, s, 1);
    NoMoreMarks(word, OWN, s, 0);
    hide Apart, ReadBack, Given;
    MeaningIsPreservedIff(word, OWN, s);
  }

  /** Text without quotes and marks is apart as it is. */
  lemma {:induction false} NoMoreMarks(word: Words, style: Style, s: string, i: nat)
    requires i <= |s| && forall k :: i <= k < |s| ==> !IsQuote(s[k]) && !Marks(s, k)
    ensures forall slot :: Apart(word, style, s, i, None, slot)
    decreases |s| - i
  {
    if i < |s| {
      NoMoreMarks(word, style, s, i + 1);
    }
  }

  // ---------- the functions themselves ----------

  lemma {:induction false} DecimalIsInjective(a: nat, b: nat)
    requires Decimal(a) == Decimal(b)
    ensures a == b
  {
    var x, y := Decimal(a), Decimal(b);
    assert x[|x| - 1] == DIGITS[a % 10] && y[|y| - 1] == DIGITS[b % 10];
    if a >= 10 && b >= 10 {
      assert x[..|x| - 1] == Decimal(a / 10) && y[..|y| - 1] == Decimal(b / 10);
      DecimalIsInjective(a / 10, b / 10);
    }
  }

  lemma NameIsInjective(a: nat, b: nat)
    requires Name(a) == Name(b)
    ensures a == b
  {
    assert Name(a)[1..] == Decimal(a) && Name(b)[1..] == Decimal(b);
    DecimalIsInjective(a, b);
  }

  /** Each parameter under its own name, and nothing else. */
  ghost predicate Named<V(!new)>(params: seq<V>, named: map<string, V>) {
    && (forall n :: 0 <= n < |params| ==> Name(n) in named && named[Name(n)] == params[n])
    && (forall name <- named :: exists n :: 0 <= n < |params| && name == Name(n))
  }

  datatype Mismatch = Mismatch(placeholders: nat, parameters: nat)

  method Dictionary<V(!new)>(params: seq<V>) returns (named: map<string, V>)
    ensures Named(params, named)
  {
    hide Name;
    named := map[];
    var n := 0;
    while n < |params|
      invariant 0 <= n <= |params| && Named(params[..n], named)
    {
      forall k | 0 <= k < n ensures Name(k) != Name(n) {
        if Name(k) == Name(n) {
          NameIsInjective(k, n);
        }
      }
      named := named[Name(n) := params[n]];
      n := n + 1;
    }
    assert params[..n] == params;
  }

  /** The whole text, and the parameters by name; refused when there are more or fewer than placeholders. */
  method Positional<V(!new)>(word: Words, query: string, params: seq<V>)
    returns (r: Result<(string, map<string, V>), Mismatch>)
    ensures r.Ok? <==> |params| == Count(Meaning(query, 0, None))
    ensures r.Ok? ==> r.value.0 == Render(Pieces(word, query, 0, None, 0)) && Named(params, r.value.1)
    ensures r.Err? ==> r.error == Mismatch(Count(Meaning(query, 0, None)), |params|)
  {
    var text, count := Rewrite(word, query);
    if |params| != count {
      return Err(Mismatch(count, |params|));
    }
    var named := Dictionary(params);
    r := Ok((text, named));
  }

  lemma {:induction false} RenderSum(a: seq<Piece>, b: seq<Piece>)
    ensures Render(a + b) == Render(a) + Render(b)
  {
    if a == [] {
      assert a + b == b;
    } else {
      assert (a + b)[1..] == a[1..] + b;
      RenderSum(a[1..], b);
    }
  }

  /** Written so far: the text of the pieces done, which hold `count` parameters and leave the rest. */
  ghost predicate Written(all: seq<Piece>, done: seq<Piece>, rest: seq<Piece>, text: string, count: nat) {
    done + rest == all && text == Render(done) && Slots(done) == seq(count, k => k)
  }

  lemma NothingIsWritten(all: seq<Piece>)
    ensures Written(all, [], all, "", 0)
  {
  }

  lemma OnePiece(p: Piece)
    ensures Render([p]) == RenderOne(p) && Slots([p]) == if p.Slot? then [p.n] else []
  {
    assert [p][1..] == [] && Render([p]) == RenderOne(p) + [];
  }

  lemma OneMore(all: seq<Piece>, done: seq<Piece>, p: Piece, rest: seq<Piece>, text: string, count: nat)
    requires Written(all, done, [p] + rest, text, count) && (p.Slot? ==> p.n == count)
    ensures Written(all, done + [p], rest, text + RenderOne(p), if p.Slot? then count + 1 else count)
  {
    hide Render, Slots, RenderOne;
    RenderSum(done, [p]);
    SlotsSum(done, [p]);
    OnePiece(p);
    assert done + ([p] + rest) == done + [p] + rest;
  }

  lemma TwoMore(all: seq<Piece>, done: seq<Piece>, c: char, rest: seq<Piece>, text: string, count: nat)
    requires Written(all, done, [Text(c), Text(c)] + rest, text, count)
    ensures Written(all, done + [Text(c), Text(c)], rest, text + [c, c], count)
  {
    hide Written;
    assert [Text(c), Text(c)] + rest == [Text(c)] + ([Text(c)] + rest);
    OneMore(all, done, Text(c), [Text(c)] + rest, text, count);
    OneMore(all, done + [Text(c)], Text(c), rest, text + [c], count);
    assert done + [Text(c)] + [Text(c)] == done + [Text(c), Text(c)] && text + [c] + [c] == text + [c, c];
  }

  lemma AllIsWritten(word: Words, query: string, done: seq<Piece>, text: string, count: nat)
    requires Written(Pieces(word, query, 0, None, 0), done, [], text, count)
    ensures text == Render(Pieces(word, query, 0, None, 0)) && count == Count(Meaning(query, 0, None))
  {
    assert done + [] == done;
    NumberedInOrder(word, query);
  }

  /** The loop: what was written so far and what the rest becomes are the whole output. */
  method Rewrite(word: Words, query: string) returns (text: string, count: nat)
    ensures text == Render(Pieces(word, query, 0, None, 0))
    ensures count == Count(Meaning(query, 0, None))
  {
    hide Render, Slots, Written;
    var i, quote: Option<char> := 0, None;
    text, count := "", 0;
    ghost var done: seq<Piece> := [];
    ghost var all := Pieces(word, query, 0, None, 0);
    NothingIsWritten(all);
    while i < |query|
      invariant 0 <= i <= |query| && Written(all, done, Pieces(word, query, i, quote, count), text, count)
      decreases |query| - i
    {
      var ch := query[i];
      if quote.Some? && ch == quote.value && i + 1 < |query| && query[i + 1] == quote.value {
        TwoMore(all, done, ch, Pieces(word, query, i + 2, quote, count), text, count);
        text := text + [ch, ch];
        done := done + [Text(ch), Text(ch)];
        i := i + 2;
      } else if quote.None? && Marks(query, i) {
        OneMore(all, done, Slot(count), Pieces(word, query, i + MarkLength(query, i), None, count + 1), text, count);
        assert text + ":p" + Decimal(count) == text + (":" + Name(count));
        text := text + ":p" + Decimal(count);
        done := done + [Slot(count)];
        i := i + MarkLength(query, i);
        count := count + 1;
      } else {
        var next := NextQuote(ch, quote);
        OneMore(all, done, Kept(word, query, i), Pieces(word, query, i + 1, next, count), text, count);
        text := text + if ch == ':' && TakesColon(word, query, i) then "\\:" else [ch];
        done := done + [Kept(word, query, i)];
        quote := next;
        i := i + 1;
      }
    }
    AllIsWritten(word, query, done, text, count);
  }

  lemma {:induction false} SlotsSum(a: seq<Piece>, b: seq<Piece>)
    ensures Slots(a + b) == Slots(a) + Slots(b)
  {
    if a == [] {
      assert a + b == b;
    } else {
      hide Slots;
      var head, tail := a[0], a[1..];
      SlotsSum(tail, b);
      assert a + b == [head] + (tail + b) && a == [head] + tail;
      SlotsAfter(head, tail + b);
      SlotsAfter(head, tail);
      var one := if head.Slot? then [head.n] else [];
      assert one + (Slots(tail) + Slots(b)) == one + Slots(tail) + Slots(b);
    }
  }

  // ---------- many rows ----------

  function CountMarks(query: string): nat {
    if query == [] then 0 else (if query[0] == '?' then 1 else 0) + CountMarks(query[1..])
  }

  /** How many question marks stand inside literals from here on. */
  function Quoted(s: string, i: nat, quote: Option<char>): nat
    requires i <= |s|
    decreases |s| - i
  {
    if i == |s| then 0
    else if quote.Some? then
      (if s[i] == '?' then 1 else 0) + Quoted(s, i + 1, if s[i] == quote.value then None else quote)
    else if IsQuote(s[i]) then Quoted(s, i + 1, Some(s[i]))
    else if Marks(s, i) then Quoted(s, i + MarkLength(s, i), None)
    else Quoted(s, i + 1, None)
  }

  /** How many placeholders are written %s from here on. */
  function Percents(s: string, i: nat, quote: Option<char>): nat
    requires i <= |s|
    decreases |s| - i
  {
    if i == |s| then 0
    else if quote.Some? then Percents(s, i + 1, if s[i] == quote.value then None else quote)
    else if IsQuote(s[i]) then Percents(s, i + 1, Some(s[i]))
    else if Marks(s, i) then
      (if s[i] == '%' then 1 else 0) + Percents(s, i + MarkLength(s, i), None)
    else Percents(s, i + 1, None)
  }

  lemma {:induction false} MarksAndPlaceholders(s: string, i: nat, quote: Option<char>)
    requires i <= |s| && (quote.Some? ==> IsQuote(quote.value))
    ensures CountMarks(s[i..]) + Percents(s, i, quote) == Count(Meaning(s, i, quote)) + Quoted(s, i, quote)
    decreases |s| - i
  {
    if i < |s| {
      assert s[i..][0] == s[i] && s[i..][1..] == s[i + 1..];
      if quote.None? && Marks(s, i) {
        var j := i + MarkLength(s, i);
        MarksAndPlaceholders(s, j, None);
        CountAfter(Placeholder, Meaning(s, j, None));
        if s[i] == '%' {
          assert s[i + 1..][0] == 's' && s[i + 1..][1..] == s[i + 2..];
        }
      } else {
        var next := NextQuote(s[i], quote);
        MarksAndPlaceholders(s, i + 1, next);
        CountAfter(Char(s[i]), Meaning(s, i + 1, next));
      }
    }
  }

  lemma CountAfter(t: Token, rest: seq<Token>)
    ensures Count([t] + rest) == (if t.Placeholder? then 1 else 0) + Count(rest)
  {
    assert ([t] + rest)[1..] == rest;
  }

  /** What stands in for a row fits exactly when the quoted question marks are as many as the placeholders written %s. */
  lemma EmptyBatchFitsIff(query: string)
    ensures CountMarks(query) == Count(Meaning(query, 0, None)) <==> Quoted(query, 0, None) == Percents(query, 0, None)
  {
    MarksAndPlaceholders(query, 0, None);
    assert query[0..] == query;
  }

  /**
   One rewriting, and a dictionary for each row: accepted when every row has a
   value for each placeholder. With no rows the question marks of the whole text
   stand in for a row, those in literals too and %s not at all.
   */
  method PositionalMany<V(!new)>(word: Words, query: string, rows: seq<seq<V>>)
    returns (r: Result<(string, seq<map<string, V>>), Mismatch>)
    ensures r.Ok? <==>
            if rows == [] then Quoted(query, 0, None) == Percents(query, 0, None)
            else forall row <- rows :: |row| == Count(Meaning(query, 0, None))
    ensures r.Ok? ==>
      && r.value.0 == Render(Pieces(word, query, 0, None, 0)) && |r.value.1| == |rows|
      && forall i :: 0 <= i < |rows| ==> Named(rows[i], r.value.1[i])
  {
    hide Meaning, Count, Pieces, Render, CountMarks, Named, Quoted, Percents;
    EmptyBatchFitsIff(query);
    var text, count := Rewrite(word, query);
    var given := if rows == [] then CountMarks(query) else |rows[0]|;
    if given != count {
      return Err(Mismatch(count, given));
    }
    var many: seq<map<string, V>> := [];
    while |many| < |rows|
      invariant |many| <= |rows|
      invariant forall i :: 0 <= i < |many| ==> |rows[i]| == count && Named(rows[i], many[i])
      decreases |rows| - |many|
    {
      var one := Positional(word, query, rows[|many|]);
      if one.Err? {
        return Err(one.error);
      }
      many := many + [one.value.1];
    }
    r := Ok((text, many));
  }

  /** An empty batch is refused for a query that is one %s, and accepted when a quoted mark makes up for it. */
  method EmptyBatches(word: Words) returns (refused: bool, accepted: bool)
    ensures refused && accepted
  {
    OnePercent();
    MadeUpFor();
    hide Quoted, Percents;
    var one := PositionalMany<int>(word, "%s", []);
    var two := PositionalMany<int>(word, "'?'%s", []);
    refused, accepted := one.Err?, two.Ok?;
  }

  lemma OnePercent()
    ensures Quoted("%s", 0, None) == 0 && Percents("%s", 0, None) == 1
  {
    assert Percents("%s", 2, None) == 0 && Quoted("%s", 2, None) == 0;
  }

  lemma MadeUpFor()
    ensures Quoted("'?'%s", 0, None) == 1 && Percents("'?'%s", 0, None) == 1
  {
    var s, quote := "'?'%s", Some('\'');
    assert Quoted(s, 5, None) == 0 && Quoted(s, 3, None) == 0 && Quoted(s, 2, quote) == 0 && Quoted(s, 1, quote) == 1;
    assert Percents(s, 5, None) == 0 && Percents(s, 3, None) == 1 && Percents(s, 2, quote) == 1;
    assert Percents(s, 1, quote) == 1;
  }
}
