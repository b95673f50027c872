/**
 The gateway's route table: which route a path falls under, the dot segments that
 are refused before one is chosen, and the path a service is sent.
 */
module GatewayTable {
  import opened Wrappers
  import StableSort

  // ---------- segments ----------

  /** Where the next slash at or after `from` is, or the length. */
  function Slash(s: string, from: nat): (k: nat)
    requires from <= |s|
    ensures from <= k <= |s|
    ensures k < |s| ==> s[k] == '/'
    ensures forall j :: from <= j < k ==> s[j] != '/'
    decreases |s| - from
  {
    if from == |s| || s[from] == '/' then from else Slash(s, from + 1)
  }

  function Split(s: string): (segments: seq<string>)
    ensures |segments| > 0
    decreases |s|
  {
    var k := Slash(s, 0);
    if k == |s| then [s] else [s[..k]] + Split(s[k + 1..])
  }

  predicate IsDot(segment: string) {
    segment == "." || segment == ".."
  }

  predicate Plain(s: string) {
    forall segment <- Split(s) :: !IsDot(segment)
  }

  function Joined(segments: seq<string>): string
    requires segments != []
  {
    if |segments| == 1 then segments[0] else segments[0] + "/" + Joined(segments[1..])
  }

  /** The segments joined by slashes are the path, and none of them holds one. */
  lemma {:induction false} SplitIsJoined(s: string)
    ensures Joined(Split(s)) == s && forall segment <- Split(s) :: '/' !in segment
    decreases |s|
  {
    var k := Slash(s, 0);
    if k < |s| {
      SplitIsJoined(s[k + 1..]);
      assert Split(s)[1..] == Split(s[k + 1..]);
    }
  }

  lemma SplitAt(s: string, k: nat)
    requires k < |s| && s[k] == '/' && '/' !in s[..k]
    ensures Split(s) == [s[..k]] + Split(s[k + 1..])
  {
    forall i | 0 <= i < k ensures s[i] != '/' {
      assert s[..k][i] in s[..k];
    }
    assert Slash(s, 0) == k;
  }

  lemma {:induction false} SplitsAtSlash(a: string, b: string)
    ensures Split(a + "/" + b) == Split(a) + Split(b)
    decreases |a|
  {
    var s, k := a + "/" + b, Slash(a, 0);
    assert s[..k] == a[..k];
    if k < |a| {
      assert s[k + 1..] == a[k + 1..] + "/" + b;
      SplitAt(s, k);
      SplitsAtSlash(a[k + 1..], b);
    } else {
      assert a[..k] == a && s[|a| + 1..] == b;
      SplitAt(s, |a|);
    }
  }

  /** A path is plain exactly when it is plain on both sides of each slash. */
  lemma PlainAtSlash(a: string, b: string)
    ensures Plain(a + "/" + b) <==> Plain(a) && Plain(b)
  {
    SplitsAtSlash(a, b);
    var s := a + "/" + b;
    assert forall segment :: segment in Split(s) <==> segment in Split(a) || segment in Split(b);
  }

  lemma PlainOfOne(s: string)
    requires '/' !in s
    ensures Plain(s) <==> !IsDot(s)
  {
    assert Split(s) == [s];
  }

  // ---------- percent decoding ----------

  function HexOf(c: char): (h: int)
    ensures -1 <= h < 16
  {
    if '0' <= c <= '9' then c as int - '0' as int
    else if 'a' <= c <= 'f' then c as int - 'a' as int + 10
    else if 'A' <= c <= 'F' then c as int - 'A' as int + 10
    else -1
  }

  predicate Escape(s: string) {
    |s| >= 3 && s[0] == '%' && HexOf(s[1]) >= 0 && HexOf(s[2]) >= 0
  }

  /** Each escape read as the character of its byte; a percent sign that starts none stays. */
  function Unquote(s: string): string {
    if s == [] then []
    else if Escape(s) then [(16 * HexOf(s[1]) + HexOf(s[2])) as char] + Unquote(s[3..])
    else [s[0]] + Unquote(s[1..])
  }

  function Decoded(s: string, times: nat): string {
    if times == 0 then s else Unquote(Decoded(s, times - 1))
  }

  // ---------- what decoding is, apart from how it is computed ----------

  const SMALL := "0123456789abcdef"
  const CAPITAL := "0123456789ABCDEF"

  /** This character is one of the two ways, or the one way, of writing a hexadecimal digit. */
  predicate IsDigit(c: char, value: nat)
    requires value < 16
  {
    c == SMALL[value] || c == CAPITAL[value]
  }

  predicate IsHex(c: char) {
    c in SMALL || c in CAPITAL
  }

  lemma DigitHasValue(c: char, value: nat)
    requires value < 16
    ensures IsDigit(c, value) <==> HexOf(c) == value
  {
  }

  lemma HexIsHex(c: char)
    ensures IsHex(c) <==> HexOf(c) >= 0
    ensures HexOf(c) >= 0 ==> IsDigit(c, HexOf(c))
  {
    if HexOf(c) >= 0 {
      DigitHasValue(c, HexOf(c));
    }
  }

  /** Two digits of a byte, capital or small, behind a percent sign are its character. */
  lemma EscapeIsItsByte(high: nat, low: nat, h: char, l: char, rest: string)
    requires high < 16 && low < 16 && IsDigit(h, high) && IsDigit(l, low)
    ensures Unquote(['%', h, l] + rest) == [(16 * high + low) as char] + Unquote(rest)
  {
    DigitHasValue(h, high);
    DigitHasValue(l, low);
    var s := ['%', h, l] + rest;
    assert s[1] == h && s[2] == l && s[3..] == rest;
  }

  /** A percent sign with anything else behind it stays. */
  lemma OtherPercentStays(s: string)
    requires s != [] && s[0] == '%' && !(|s| >= 3 && IsHex(s[1]) && IsHex(s[2]))
    ensures Unquote(s) == "%" + Unquote(s[1..])
  {
    if |s| >= 3 {
      HexIsHex(s[1]);
      HexIsHex(s[2]);
    }
  }

  lemma {:induction false} WithoutPercentStays(s: string)
    requires '%' !in s
    ensures Unquote(s) == s
  {
    if s != [] {
      WithoutPercentStays(s[1..]);
    }
  }

  /** The text spells the other: each of its characters stands as itself or as an escape of its byte. */
  ghost predicate Spells(s: string, w: string)
    decreases |w|
  {
    if w == [] then s == []
    else
      || (s != [] && s[0] == w[0] && Spells(s[1..], w[1..]))
      || (|s| >= 3 && s[0] == '%' && IsByte(w[0], s[1], s[2]) && Spells(s[3..], w[1..]))
  }

  /** These two digits, capital or small, are the byte of the character. */
  ghost predicate IsByte(c: char, h: char, l: char) {
    exists high, low :: 0 <= high < 16 && 0 <= low < 16 && IsDigit(h, high) && IsDigit(l, low)
                        && c as int == 16 * high + low
  }

  lemma ByteHasDigits(c: char, h: char, l: char)
    ensures IsByte(c, h, l) <==> HexOf(h) >= 0 && HexOf(l) >= 0 && c as int == 16 * HexOf(h) + HexOf(l)
  {
    if high, low :| 0 <= high < 16 && 0 <= low < 16 && IsDigit(h, high) && IsDigit(l, low)
                    && c as int == 16 * high + low {
      DigitHasValue(h, high);
      DigitHasValue(l, low);
    }
    if HexOf(h) >= 0 && HexOf(l) >= 0 && c as int == 16 * HexOf(h) + HexOf(l) {
      HexIsHex(h);
      HexIsHex(l);
    }
  }

  lemma {:induction false} SpellsItself(s: string)
    ensures Spells(s, s)
  {
    if s != [] {
      SpellsItself(s[1..]);
    }
  }

  /** Every text spells what it decodes to. */
  lemma {:induction false} SpellsItsDecoding(s: string)
    ensures Spells(s, Unquote(s))
    decreases |s|
  {
    hide HexOf;
    if s != [] && Escape(s) {
      SpellsItsDecoding(s[3..]);
      ByteHasDigits(Unquote(s)[0], s[1], s[2]);
    } else if s != [] {
      SpellsItsDecoding(s[1..]);
    }
  }

  /** A segment whose decoding, or the decoding of that, is one dot or two. */
  ghost predicate WritesDots(segment: string) {
    exists dots, once :: IsDot(dots) && Spells(once, dots) && Spells(segment, once)
  }

  lemma SpellsCons(s: string, c: char, w: string)
    requires Spells(s, [c] + w)
    ensures s != []
    ensures || (s[0] == c && Spells(s[1..], w))
            || (|s| >= 3 && s[0] == '%' && IsByte(c, s[1], s[2]) && Spells(s[3..], w))
  {
    assert ([c] + w)[1..] == w;
  }

  /** A character other than a percent sign is read wherever it is spelled. */
  lemma ReadsOne(s: string, c: char, w: string) returns (rest: string)
    requires c != '%' && Spells(s, [c] + w)
    ensures Spells(rest, w) && Unquote(s) == [c] + Unquote(rest)
    ensures s != [] && ((s[0] == c && rest == s[1..]) || s[0] == '%')
  {
    SpellsCons(s, c, w);
    if s[0] == c {
      rest := s[1..];
    } else {
      hide HexOf, Spells;
      ByteHasDigits(c, s[1], s[2]);
      rest := s[3..];
    }
  }

  /** An escape of a dot stands first in what the text spells: decoded, a dot or still its escape. */
  lemma EscapedDotIsRead(s: string, e: char, w: string) returns (rest: string)
    requires (e == 'e' || e == 'E') && Spells(s, ['%'] + (['2'] + ([e] + w)))
    ensures Spells(rest, w)
    ensures Unquote(s) == "." + Unquote(rest) || Unquote(s) == ['%', '2', e] + Unquote(rest)
  {
    SpellsCons(s, '%', ['2'] + ([e] + w));
    hide Spells, IsByte;
    if s[0] == '%' && Spells(s[1..], ['2'] + ([e] + w)) {
      var t := s[1..];
      var u := ReadsOne(t, '2', [e] + w);
      rest := ReadsOne(u, e, w);
      if t[0] == '2' && u[0] == e {
        assert s == ['%', '2', e] + rest;
        EscapeIsItsByte(2, 14, '2', e, rest);
      } else {
        NoEscape(s);
      }
    } else {
      ByteHasDigits('%', s[1], s[2]);
      var u := ReadsOne(s[3..], '2', [e] + w);
      rest := ReadsOne(u, e, w);
    }
  }

  lemma NoEscape(s: string)
    requires |s| >= 1 && s[0] == '%' && ((|s| >= 2 && s[1] == '%') || (|s| >= 3 && s[2] == '%'))
    ensures !Escape(s) && Unquote(s) == "%" + Unquote(s[1..])
  {
    assert HexOf('%') == -1;
  }

  /** The first dot that is spelled in what the text spells is read in two steps at most. */
  lemma ReadsADot(s: string, once: string, more: string) returns (rest: string, w: string)
    requires Spells(once, ['.'] + more) && Spells(s, once)
    ensures Spells(w, more) && Spells(rest, w) && Unquote(Unquote(s)) == "." + Unquote(Unquote(rest))
  {
    SpellsCons(once, '.', more);
    if once[0] == '.' {
      hide Spells, IsByte, HexOf;
      w := once[1..];
      assert once == ['.'] + w;
      rest := ReadsOne(s, '.', w);
    } else {
      ByteOfDot(once[1], once[2]);
      hide Spells, IsByte, HexOf;
      var e := once[2];
      w := once[3..];
      assert once == ['%'] + (['2'] + ([e] + w));
      rest := EscapedDotIsRead(s, e, w);
      EscapeIsItsByte(2, 14, '2', e, Unquote(rest));
    }
    DotThenRest(Unquote(rest));
  }

  /** What spells dots, in a text that spells it, decodes to them in two steps at most. */
  lemma {:induction false} SpelledDotsAreRead(s: string, once: string, dots: string)
    requires (forall c <- dots :: c == '.') && Spells(once, dots) && Spells(s, once)
    ensures Unquote(Unquote(s)) == dots
    decreases |dots|
  {
    if dots != [] {
      var more := dots[1..];
      assert dots[0] in dots && dots == ['.'] + more && forall c <- more :: c in dots;
      hide Unquote, Spells;
      var rest, w := ReadsADot(s, once, more);
      SpelledDotsAreRead(rest, w, more);
    }
  }

  lemma DotThenRest(s: string)
    ensures Unquote("." + s) == "." + Unquote(s)
  {
    assert ("." + s)[1..] == s;
  }

  lemma ByteOfDot(h: char, l: char)
    ensures IsByte('.', h, l) <==> h == '2' && (l == 'e' || l == 'E')
  {
    ByteHasDigits('.', h, l);
  }

  /** An escape cannot reach over a slash. */
  lemma EscapeAtSlash(a: string, b: string)
    requires a != []
    ensures Escape(a + "/" + b) <==> Escape(a)
  {
    var s := a + "/" + b;
    if |a| <= 2 {
      assert s[|a|] == '/' && HexOf('/') == -1;
    }
  }

  lemma {:induction false} UnquoteAtSlash(a: string, b: string)
    ensures Unquote(a + "/" + b) == Unquote(a) + "/" + Unquote(b)
    decreases |a|
  {
    hide HexOf;
    var s := a + "/" + b;
    if a == [] {
      assert s == "/" + b;
      UnquoteOfPlain('/', b);
    } else {
      EscapeAtSlash(a, b);
      var k := if Escape(a) then 3 else 1;
      assert s[k..] == a[k..] + "/" + b;
      UnquoteAtSlash(a[k..], b);
    }
  }

  lemma {:induction false} DecodedAtSlash(a: string, b: string, times: nat)
    ensures Decoded(a + "/" + b, times) == Decoded(a, times) + "/" + Decoded(b, times)
  {
    if times > 0 {
      DecodedAtSlash(a, b, times - 1);
      UnquoteAtSlash(Decoded(a, times - 1), Decoded(b, times - 1));
    }
  }

  /** However often it is decoded, a path is plain exactly when each of its segments is, decoded alone. */
  lemma {:induction false} DecodedIsPlainIff(s: string, times: nat)
    ensures Plain(Decoded(s, times)) <==> forall segment <- Split(s) :: Plain(Decoded(segment, times))
    decreases |s|
  {
    var k := Slash(s, 0);
    if k < |s| {
      var a, b := s[..k], s[k + 1..];
      assert s == a + "/" + b;
      DecodedAtSlash(a, b, times);
      PlainAtSlash(Decoded(a, times), Decoded(b, times));
      DecodedIsPlainIff(b, times);
      assert forall segment :: segment in Split(s) <==> segment == a || segment in Split(b);
    } else {
      assert Split(s) == [s];
    }
  }

  // ---------- section 5.2.4 of RFC 3986 ----------

  /** The output without its last segment and the slash before it. */
  function WithoutLast(output: string): (r: string)
    ensures |r| <= |output|
  {
    if output == [] then []
    else if output[|output| - 1] == '/' then output[..|output| - 1]
    else WithoutLast(output[..|output| - 1])
  }

  predicate DotFirst(input: string) {
    "../" <= input || "./" <= input || "/./" <= input || input == "/." || Up(input) || IsDot(input)
  }

  predicate Up(input: string) {
    "/../" <= input || input == "/.."
  }

  /** The input with its leading dot segment taken off (steps 2A to 2D). */
  function AfterDot(input: string): (rest: string)
    requires DotFirst(input)
    ensures |rest| < |input|
  {
    if "../" <= input || "/../" <= input then input[3..]
    else if "./" <= input || "/./" <= input then input[2..]
    else if input == "/." || input == "/.." then "/"
    else ""
  }

  function RemoveDots(input: string, output: string): string
    decreases |input|
  {
    if input == [] then output
    else if DotFirst(input) then
      RemoveDots(AfterDot(input), if Up(input) then WithoutLast(output) else output)
    else
      var k := Slash(input, 1);
      RemoveDots(input[k..], output + input[..k])
  }

  lemma RemovesOne(input: string, output: string)
    requires DotFirst(input)
    ensures RemoveDots(input, output) == RemoveDots(AfterDot(input), if Up(input) then WithoutLast(output) else output)
  {
    hide AfterDot, Up;
  }

  /** Section 5.2.4 of RFC 3986, rule by rule: what stands first in the input decides. */
  lemma RulesOfRemoval(rest: string, output: string)
    ensures RemoveDots("../" + rest, output) == RemoveDots(rest, output)
    ensures RemoveDots("./" + rest, output) == RemoveDots(rest, output)
    ensures RemoveDots("/./" + rest, output) == RemoveDots("/" + rest, output)
    ensures RemoveDots("/../" + rest, output) == RemoveDots("/" + rest, WithoutLast(output))
  {
    hide RemoveDots, WithoutLast;
    var a, b, c, d := "../" + rest, "./" + rest, "/./" + rest, "/../" + rest;
    assert "../" <= a && a[0] == '.' && a[3..] == rest;
    assert "./" <= b && b[0] == '.' && b[1] == '/' && b[2..] == rest;
    assert "/./" <= c && c[0] == '/' && c[1] == '.' && c[2] == '/' && c[2..] == "/" + rest;
    assert "/../" <= d && d[0] == '/' && d[3..] == "/" + rest;
    RemovesOne(a, output);
    RemovesOne(b, output);
    RemovesOne(c, output);
    RemovesOne(d, output);
  }

  lemma RulesAtTheEnd(output: string)
    ensures RemoveDots("/.", output) == RemoveDots("/", output)
    ensures RemoveDots("/..", output) == RemoveDots("/", WithoutLast(output))
    ensures RemoveDots(".", output) == RemoveDots("", output) && RemoveDots("..", output) == RemoveDots("", output)
  {
    hide RemoveDots, WithoutLast;
    var a, b := "/.", "/..";
    assert |a| == 2 && a[0] == '/' && a[1] == '.' && a != b;
    assert |b| == 3 && b[0] == '/' && b[1] == '.' && b[2] == '.';
    assert !("./" <= a) && !("./" <= b) && !("../" <= a) && !("../" <= b) && !("/./" <= b);
    assert AfterDot(a) == "/" && AfterDot(b) == "/" && Up(b) && !Up(a);
    RemovesOne(a, output);
    RemovesOne(b, output);
    RemovesOne(".", output);
    RemovesOne("..", output);
  }

  /** A first segment that is no dots, with the slash before it, moves to the output. */
  lemma RuleOfMoving(segment: string, rest: string, output: string)
    requires '/' !in segment && !IsDot(segment) && (rest == "" || rest[0] == '/')
    ensures RemoveDots("/" + segment + rest, output) == RemoveDots(rest, output + "/" + segment)
    ensures RemoveDots("", output) == output
  {
    var a, k := "/" + segment + rest, |segment| + 1;
    NoDotFirst(segment, rest);
    assert forall i :: 0 < i < k ==> a[i] == segment[i - 1] && segment[i - 1] in segment;
    assert k < |a| ==> a[k] == rest[0];
    SlashIs(a, k);
    assert a[..k] == "/" + segment && a[k..] == rest;
    assert output + ("/" + segment) == output + "/" + segment;
    hide DotFirst, AfterDot, Up, WithoutLast, Slash;
    assert RemoveDots(a, output) == RemoveDots(a[k..], output + a[..k]);
  }

  lemma SlashIs(s: string, k: nat)
    requires 1 <= k <= |s| && (k < |s| ==> s[k] == '/') && forall i :: 1 <= i < k ==> s[i] != '/'
    ensures Slash(s, 1) == k
  {
  }

  lemma NoDotFirst(segment: string, rest: string)
    requires '/' !in segment && !IsDot(segment) && (rest == "" || rest[0] == '/')
    ensures !DotFirst("/" + segment + rest)
  {
    var a := "/" + segment + rest;
    assert a[0] == '/';
    assert forall i :: 0 <= i < |segment| ==> a[i + 1] == segment[i] && segment[i] in segment;
    assert |segment| + 1 < |a| ==> a[|segment| + 1] == rest[0];
    assert |segment| == 1 ==> segment == [segment[0]] && segment[0] != '.';
    assert |segment| == 2 ==> segment == [segment[0], segment[1]] && (segment[0] != '.' || segment[1] != '.');
    assert |segment| >= 2 ==> a[2] == segment[1] && segment[1] != '/';
    assert |segment| >= 3 ==> a[3] == segment[2] && segment[2] != '/';
  }

  /** The output loses its last segment and the slash before it, or everything when it has no slash. */
  lemma {:induction false} WithoutLastIs(front: string, segment: string)
    requires '/' !in segment
    ensures WithoutLast(front + "/" + segment) == front && WithoutLast(segment) == ""
    decreases |segment|
  {
    var s := front + "/" + segment;
    if segment != "" {
      var n := |segment| - 1;
      assert s[..|s| - 1] == front + "/" + segment[..n] && s[|s| - 1] == segment[n];
      WithoutLastIs(front, segment[..n]);
    } else {
      assert s[..|s| - 1] == front;
    }
  }

  predicate Fixed(path: string) {
    RemoveDots(path, "") == path
  }

  lemma LeadingDot(s: string, from: nat, k: nat)
    requires from <= k <= |s| && IsDot(s[from..k])
    requires from == 0 || (from == 1 && s[0] == '/')
    requires k == |s| || s[k] == '/'
    ensures !Plain(s)
  {
    var t := s[from..];
    var first := t[..k - from];
    assert first == s[from..k];
    if k < |s| {
      SplitAt(t, k - from);
    } else {
      assert t == first && Slash(t, 0) == |t|;
    }
    assert first in Split(t);
    if from == 1 {
      assert s == "" + "/" + t;
      PlainAtSlash("", t);
    }
  }

  lemma DotFirstIsNotPlain(s: string)
    requires DotFirst(s)
    ensures !Plain(s)
  {
    hide Plain;
    if "../" <= s || s == ".." {
      assert s[0..2] == "..";
      LeadingDot(s, 0, 2);
    } else if "./" <= s || s == "." {
      assert s[0..1] == ".";
      LeadingDot(s, 0, 1);
    } else if Up(s) {
      assert s[1..3] == "..";
      LeadingDot(s, 1, 3);
    } else {
      assert s[1..2] == ".";
      LeadingDot(s, 1, 2);
    }
  }

  /** When no dot segment comes first, the rest of the path decides. */
  lemma PlainAfterFirst(s: string)
    requires s != [] && !DotFirst(s)
    ensures var k := Slash(s, 1); Plain(s) <==> Plain(s[k..])
  {
    var k := Slash(s, 1);
    var first := s[..k];
    FirstIsPlain(s);
    hide DotFirst, Plain, IsDot, Split;
    PlainOfOne("");
    if k < |s| {
      assert s == first + "/" + s[k + 1..];
      assert s[k..] == "" + "/" + s[k + 1..];
      PlainAtSlash(first, s[k + 1..]);
      PlainAtSlash("", s[k + 1..]);
    } else {
      assert s == first && s[k..] == "";
    }
  }

  lemma FirstIsPlain(s: string)
    requires s != [] && !DotFirst(s)
    ensures Plain(s[..Slash(s, 1)]) && Plain("")
  {
    var k := Slash(s, 1);
    var first := s[..k];
    PlainOfOne("");
    if s[0] == '/' {
      assert first == "" + "/" + s[1..k];
      PlainAtSlash("", s[1..k]);
      PlainOfOne(s[1..k]);
    } else {
      PlainOfOne(first);
    }
  }

  /** Removing dot segments leaves a plain input as it is, and shortens any other. */
  lemma {:induction false} RemoveDotsShortens(input: string, output: string)
    ensures Plain(input) ==> RemoveDots(input, output) == output + input
    ensures |RemoveDots(input, output)| <= |output| + |input|
    ensures !Plain(input) ==> |RemoveDots(input, output)| < |output| + |input|
    decreases |input|
  {
    hide Plain, DotFirst, AfterDot, Up;
    if input == [] {
      PlainOfOne("");
    } else if DotFirst(input) {
      DotFirstIsNotPlain(input);
      RemoveDotsShortens(AfterDot(input), if Up(input) then WithoutLast(output) else output);
    } else {
      var k := Slash(input, 1);
      PlainAfterFirst(input);
      RemoveDotsShortens(input[k..], output + input[..k]);
      assert output + input[..k] + input[k..] == output + input;
    }
  }

  /** A path is a fixed point of remove_dot_segments exactly when no segment of it is a dot segment. */
  lemma FixedIffPlain(path: string)
    ensures Fixed(path) <==> Plain(path)
  {
    RemoveDotsShortens(path, "");
    assert "" + path == path;
  }

  // ---------- what the gateway refuses ----------

  predicate Climbs(segment: string) {
    IsDot(Unquote(segment)) || IsDot(Unquote(Unquote(segment)))
  }

  /**
   What the check takes for a climb: one dot or two, each written as itself or as
   an escape, and each character of that again as itself or as an escape, in
   capital or small letters.
   */
  lemma ClimbsIff(segment: string)
    ensures Climbs(segment) <==> WritesDots(segment)
  {
    if Climbs(segment) {
      var once := Unquote(segment);
      SpellsItsDecoding(segment);
      SpellsItsDecoding(once);
      SpellsItself(once);
      SpellsItself(segment);
    }
    if dots, once :| IsDot(dots) && Spells(once, dots) && Spells(segment, once) {
      SpelledDotsAreRead(segment, once, dots);
    }
  }

  predicate Traversing(path: string) {
    '\\' in path || exists segment <- Split(path) :: Climbs(segment)
  }

  method Traverses(path: string) returns (refused: bool)
    ensures refused <==> Traversing(path)
    ensures refused <==> '\\' in path || exists segment <- Split(path) :: WritesDots(segment)
  {
    forall segment ensures Climbs(segment) <==> WritesDots(segment) { ClimbsIff(segment); }
    hide WritesDots, Split;
    if '\\' in path {
      return true;
    }
    var segments := Split(path);
    var i := 0;
    while i < |segments|
      invariant 0 <= i <= |segments|
      invariant forall j :: 0 <= j < i ==> !Climbs(segments[j])
    {
      var decoded := Unquote(segments[i]);
      if decoded == "." || decoded == ".." || Unquote(decoded) == "." || Unquote(decoded) == ".." {
        assert segments[i] in segments;
        return true;
      }
      i := i + 1;
    }
    refused := false;
  }

  /** A segment whose decoding, once or twice, makes a slash and a dot segment beside it. */
  predicate HidesDot(path: string) {
    exists segment <- Split(path) ::
      ('/' in Unquote(segment) && !Plain(Unquote(segment)))
      || ('/' in Unquote(Unquote(segment)) && !Plain(Unquote(Unquote(segment))))
  }

  lemma {:induction false} SegmentsHoldNoSlash(s: string)
    ensures forall segment <- Split(s) :: '/' !in segment
    decreases |s|
  {
    var k := Slash(s, 0);
    if k < |s| {
      SegmentsHoldNoSlash(s[k + 1..]);
    }
  }

  /** The path as it is sent, and as a server decoding it once or twice reads it, are all without dots. */
  predicate SafelyRead(path: string) {
    Fixed(path) && Fixed(Unquote(path)) && Fixed(Unquote(Unquote(path)))
  }

  lemma SafelyReadIff(path: string)
    ensures SafelyRead(path) <==>
            forall segment <- Split(path) ::
              !IsDot(segment) && Plain(Unquote(segment)) && Plain(Unquote(Unquote(segment)))
  {
    FixedIffPlain(path);
    FixedIffPlain(Unquote(path));
    FixedIffPlain(Unquote(Unquote(path)));
    DecodedIsPlainIff(path, 1);
    DecodedIsPlainIff(path, 2);
    TwiceIsTwo(path);
    forall segment | segment in Split(path)
      ensures Decoded(segment, 1) == Unquote(segment) && Decoded(segment, 2) == Unquote(Unquote(segment))
    {
      TwiceIsTwo(segment);
    }
  }

  lemma TwiceIsTwo(s: string)
    ensures Decoded(s, 1) == Unquote(s) && Decoded(s, 2) == Unquote(Unquote(s))
  {
    assert Decoded(s, 0) == s;
  }

  /**
   Containment, for every path: no reading of it climbs exactly when it has no
   backslash, the check passes it and no escaped slash hides a dot segment.
   */
  lemma PassesIffSafelyRead(path: string)
    ensures '\\' !in path && SafelyRead(path) <==> !Traversing(path) && !HidesDot(path)
  {
    SafelyReadIff(path);
    forall segment | segment in Split(path)
      ensures IsDot(segment) || !Plain(Unquote(segment)) || !Plain(Unquote(Unquote(segment)))
         <==> Climbs(segment)
              || ('/' in Unquote(segment) && !Plain(Unquote(segment)))
              || ('/' in Unquote(Unquote(segment)) && !Plain(Unquote(Unquote(segment))))
    {
      hide Plain;
      DotStaysDot(segment);
      PlainOrSlash(Unquote(segment));
      PlainOrSlash(Unquote(Unquote(segment)));
    }
  }

  lemma PlainOrSlash(s: string)
    ensures !Plain(s) <==> IsDot(s) || ('/' in s && !Plain(s))
  {
    if '/' !in s {
      PlainOfOne(s);
    } else {
      assert IsDot(s) ==> '/' !in s;
    }
  }

  lemma DotStaysDot(segment: string)
    ensures IsDot(segment) ==> Unquote(segment) == segment
  {
    if segment == ".." {
      assert segment[1..] == ".";
    }
  }

  /** Hidden slash or not: the path passed is a fixed point as it stands, and nothing safe is refused. */
  lemma PassesAsItStands(path: string)
    ensures !Traversing(path) ==> Fixed(path)
    ensures '\\' !in path && SafelyRead(path) ==> !Traversing(path)
  {
    SafelyReadIff(path);
    FixedIffPlain(path);
    SegmentsHoldNoSlash(path);
    forall segment | segment in Split(path)
      ensures IsDot(segment) ==> Climbs(segment)
      ensures Plain(Unquote(segment)) && Plain(Unquote(Unquote(segment))) ==> !Climbs(segment)
    {
      DotStaysDot(segment);
      if Climbs(segment) {
        var d := if IsDot(Unquote(segment)) then Unquote(segment) else Unquote(Unquote(segment));
        PlainOfOne(d);
      }
    }
  }

  lemma UnquoteOfHidden()
    ensures Unquote("..%2f") == "../" && Unquote("../") == "../"
  {
    UnquoteOfPlain('.', ".%2f");
    UnquoteOfPlain('.', "%2f");
    UnquoteOfPlain('.', "./");
    UnquoteOfPlain('.', "/");
    UnquoteOfPlain('/', "");
    assert "%2f"[3..] == "";
    assert Unquote("%2f") == "/";
    assert ['.'] + ".%2f" == "..%2f" && ['.'] + "%2f" == ".%2f";
    assert ['.'] + "./" == "../" && ['.'] + "/" == "./" && ['/'] + "" == "/";
  }

  lemma UnquoteOfPlain(c: char, rest: string)
    requires c != '%'
    ensures Unquote([c] + rest) == [c] + Unquote(rest)
  {
    assert ([c] + rest)[1..] == rest;
  }

  /** A slash hidden in an escape: the check passes a path that a server decoding it reads a dot segment in. */
  lemma HiddenSlashPasses() returns (path: string)
    ensures !Traversing(path) && Fixed(path) && !Fixed(Unquote(path))
    ensures HidesDot(path)
  {
    var segment := "..%2f";
    path := "" + "/" + segment;
    UnquoteOfHidden();
    UnquoteAtSlash("", segment);
    assert Unquote("") == "" && Unquote(path) == "/../";
    SplitsAtSlash("", segment);
    assert Split(segment) == [segment] && Split("") == [""];
    assert Split(path) == ["", segment];
    hide Plain, RemoveDots, Split, Unquote;
    ClimbsWhenRead();
    PassesAsItStands(path);
    PassesIffSafelyRead(path);
  }

  lemma ClimbsWhenRead()
    ensures !Fixed("/../")
  {
    assert DotFirst("/../");
    DotFirstIsNotPlain("/../");
    FixedIffPlain("/../");
  }

  // ---------- routes ----------

  datatype Route = Route(id: string, prefix: string, upstreams: seq<string>, strip: bool, group: string)

  predicate Covers(r: Route, path: string) {
    path == r.prefix || r.prefix + "/" <= path
  }

  function UpstreamPath(r: Route, path: string): string
    requires Covers(r, path)
  {
    if !r.strip then path
    else
      var rest := path[|r.prefix|..];
      if "/" <= rest then rest else "/" + rest
  }

  /** A route covers a path exactly when its prefix's segments are the path's first ones. */
  lemma CoversBySegments(r: Route, path: string)
    ensures Covers(r, path) <==> Split(r.prefix) <= Split(path)
  {
    hide Split, Joined;
    if r.prefix + "/" <= path {
      var rest := path[|r.prefix| + 1..];
      assert path == r.prefix + "/" + rest;
      SplitsAtSlash(r.prefix, rest);
    }
    if Split(r.prefix) <= Split(path) {
      SegmentsCover(r, path);
    }
  }

  lemma SegmentsCover(r: Route, path: string)
    requires Split(r.prefix) <= Split(path)
    ensures Covers(r, path)
  {
    hide Split, Joined;
    var a, b := Split(r.prefix), Split(path);
    SplitIsJoined(r.prefix);
    SplitIsJoined(path);
    var more := b[|a|..];
    assert b == a + more;
    if more == [] {
      assert b == a;
    } else {
      JoinedSum(a, more);
      assert path == r.prefix + "/" + Joined(more);
    }
  }

  lemma {:induction false} JoinedSum(a: seq<string>, b: seq<string>)
    requires a != [] && b != []
    ensures Joined(a + b) == Joined(a) + "/" + Joined(b)
  {
    assert (a + b)[1..] == a[1..] + b;
    if |a| > 1 {
      JoinedSum(a[1..], b);
    }
  }

  /** The service is sent the path as it is or, for a stripping route, what its prefix leaves of it. */
  lemma UpstreamIs(r: Route, path: string)
    requires Covers(r, path)
    ensures !r.strip ==> UpstreamPath(r, path) == path
    ensures r.strip && path == r.prefix ==> UpstreamPath(r, path) == "/"
    ensures r.strip && path != r.prefix ==> r.prefix + UpstreamPath(r, path) == path && "/" <= UpstreamPath(r, path)
  {
  }

  /** Removing dot segments cannot take a path the check passed out of the route that covers it. */
  lemma StaysUnderItsRoute(r: Route, path: string)
    requires Covers(r, path) && !Traversing(path)
    ensures Covers(r, RemoveDots(path, ""))
  {
    PassesAsItStands(path);
  }

  /** The path built for the service passes the check again, so the second refusal never happens. */
  lemma UpstreamPathPasses(r: Route, path: string)
    requires Covers(r, path) && !Traversing(path)
    ensures !Traversing(UpstreamPath(r, path))
  {
    if r.strip {
      assert Split("") == [""] && Unquote("") == "";
      if path == r.prefix {
        assert "/" == "" + "/" + "";
        SplitsAtSlash("", "");
      } else {
        var rest := path[|r.prefix| + 1..];
        assert path == r.prefix + "/" + rest;
        assert path[|r.prefix|..] == "" + "/" + rest;
        SplitsAtSlash(r.prefix, rest);
        SplitsAtSlash("", rest);
      }
    }
  }

  /** Some path reaches the route exactly when its own prefix passes the check. */
  lemma ReachableIff(r: Route)
    ensures (exists path :: Covers(r, path) && !Traversing(path)) <==> !Traversing(r.prefix)
  {
    assert Covers(r, r.prefix);
    forall path | Covers(r, path) && !Traversing(path)
      ensures !Traversing(r.prefix)
    {
      if path != r.prefix {
        var rest := path[|r.prefix| + 1..];
        assert path == r.prefix + "/" + rest;
        SplitsAtSlash(r.prefix, rest);
      }
    }
  }

  // ---------- the longest prefix ----------

  predicate Better(path: string, r: Route, best: Option<Route>) {
    Covers(r, path) && (best.None? || |r.prefix| > |best.value.prefix|)
  }

  function BestOf(routes: seq<Route>, path: string): Option<Route> {
    if routes == [] then None
    else
      var best := BestOf(routes[..|routes| - 1], path);
      var r := routes[|routes| - 1];
      if Better(path, r, best) then Some(r) else best
  }

  method Match(routes: seq<Route>, path: string) returns (best: Option<Route>)
    ensures best == BestOf(routes, path)
  {
    best := None;
    var i := 0;
    while i < |routes|
      invariant 0 <= i <= |routes|
      invariant best == BestOf(routes[..i], path)
    {
      assert routes[..i + 1][..i] == routes[..i];
      if Covers(routes[i], path) && (best.None? || |routes[i].prefix| > |best.value.prefix|) {
        best := Some(routes[i]);
      }
      i := i + 1;
    }
    assert routes[..i] == routes;
  }

  /** The route chosen covers the path with the longest prefix, and none is chosen only when none covers it. */
  lemma {:induction false} BestIsLongest(routes: seq<Route>, path: string)
    ensures match BestOf(routes, path)
            case None => forall r <- routes :: !Covers(r, path)
            case Some(best) =>
              && best in routes && Covers(best, path)
              && forall r <- routes :: Covers(r, path) ==> |r.prefix| <= |best.prefix|
  {
    if routes != [] {
      var front := routes[..|routes| - 1];
      BestIsLongest(front, path);
      assert routes == front + [routes[|routes| - 1]];
    }
  }

  predicate OnePerPrefix(routes: seq<Route>) {
    forall a <- routes, b <- routes :: a.prefix == b.prefix ==> a == b
  }

  /** With one route per prefix, the order of the table does not matter. */
  lemma OrderDoesNotMatter(routes: seq<Route>, other: seq<Route>, path: string)
    requires multiset(other) == multiset(routes) && OnePerPrefix(routes)
    ensures BestOf(other, path) == BestOf(routes, path)
  {
    BestIsLongest(routes, path);
    BestIsLongest(other, path);
    forall r ensures r in routes <==> r in other {
      assert r in multiset(routes) <==> r in multiset(other);
    }
    var x, y := BestOf(routes, path), BestOf(other, path);
    if x.Some? && y.Some? {
      assert |x.value.prefix| == |y.value.prefix|;
      assert x.value.prefix == path[..|x.value.prefix|] && y.value.prefix == path[..|y.value.prefix|];
    }
  }

  ghost predicate OrderIndependent(routes: seq<Route>) {
    forall other, path :: multiset(other) == multiset(routes) ==> BestOf(other, path) == BestOf(routes, path)
  }

  /** And only then: two routes of one prefix make the choice depend on which stands first. */
  lemma OrderIndependentIff(routes: seq<Route>)
    ensures OrderIndependent(routes) <==> OnePerPrefix(routes)
  {
    if OnePerPrefix(routes) {
      forall other, path | multiset(other) == multiset(routes)
        ensures BestOf(other, path) == BestOf(routes, path)
      {
        OrderDoesNotMatter(routes, other, path);
      }
    } else {
      var a, b :| a in routes && b in routes && a.prefix == b.prefix && a != b;
      var ra := Fronted(routes, a);
      var rb := Fronted(routes, b);
      FirstOfItsPrefix(ra);
      FirstOfItsPrefix(rb);
    }
  }

  lemma Fronted(routes: seq<Route>, r: Route) returns (other: seq<Route>)
    requires r in routes
    ensures other != [] && other[0] == r && multiset(other) == multiset(routes)
  {
    var i :| 0 <= i < |routes| && routes[i] == r;
    other := [r] + (routes[..i] + routes[i + 1..]);
    assert routes == routes[..i] + ([r] + routes[i + 1..]);
  }

  lemma {:induction false} FirstOfItsPrefix(routes: seq<Route>)
    requires routes != []
    ensures BestOf(routes, routes[0].prefix) == Some(routes[0])
    decreases |routes|
  {
    var front := routes[..|routes| - 1];
    if front != [] {
      FirstOfItsPrefix(front);
    } else {
      assert BestOf(front, routes[0].prefix) == None;
    }
  }

  // ---------- one entry of a table ----------

  const ALL_METHODS := ["GET", "HEAD", "POST", "PUT", "PATCH", "DELETE", "OPTIONS"]
  const AUTH_KINDS := ["none", "session"]
  const OWN_PREFIXES := ["/api/admin/gateway", "/api/gateway", "/keepup-gateway"]

  function TrimRight(s: string, drop: set<char>): string {
    if s != [] && s[|s| - 1] in drop then TrimRight(s[..|s| - 1], drop) else s
  }

  function TrimLeft(s: string, drop: set<char>): string {
    if s != [] && s[0] in drop then TrimLeft(s[1..], drop) else s
  }

  const BLANKS := {' ', '\t', '\n', '\r'}

  function Trim(s: string): string {
    TrimLeft(TrimRight(s, BLANKS), BLANKS)
  }

  /** A prefix the table accepts: a plain path that is not the root and stays off the gateway's own. */
  predicate Servable(prefix: string) {
    && "/" <= prefix && prefix != "/" && prefix[|prefix| - 1] != '/'
    && ".." !in Split(prefix) && '{' !in prefix && '}' !in prefix
    && forall own <- OWN_PREFIXES ::
         prefix != own && !(own + "/" <= prefix) && !(prefix + "/" <= own)
  }

  /** An address, and what the URL library reads in it; `extra` is a query or a fragment. */
  datatype Address = Address(text: string, scheme: string, netloc: string, extra: bool)

  predicate Reachable(a: Address) {
    (a.scheme == "http" || a.scheme == "https") && a.netloc != "" && !a.extra
  }

  /** A route's own keys: methods in capitals, header names in small letters, the numbers given. */
  datatype Settings = Settings(methods: seq<string>, auth: string, permission: Option<string>,
                               headers: set<string>, numbers: seq<int>, strip: bool)

  predicate Fit(s: Settings) {
    && (forall m <- s.methods :: m in ALL_METHODS)
    && (s.auth == "" || s.auth in AUTH_KINDS)
    && (s.permission.Some? ==> Trim(s.permission.value) != "")
    && (forall h <- s.headers :: !("x-keepup-" <= h))
    && (forall n <- s.numbers :: n > 0)
  }

  /** An empty id or prefix is none. */
  datatype Entry = Entry(id: string, prefix: string, upstreams: seq<Address>, settings: Settings)

  /** The entry can be served. */
  predicate Valid(e: Entry) {
    && "/" <= e.prefix && Servable(TrimRight(e.prefix, {'/'}))
    && e.upstreams != [] && (forall a <- e.upstreams :: Reachable(a)) && Fit(e.settings)
  }

  function Upstreams(addresses: seq<Address>): (texts: seq<string>)
    ensures |texts| == |addresses|
  {
    if addresses == [] then [] else [TrimRight(addresses[0].text, {'/'})] + Upstreams(addresses[1..])
  }

  // ---------- what may stand in a table, apart from how it is checked ----------

  lemma {:induction false} TrimRightIs(s: string, drop: set<char>)
    ensures var t := TrimRight(s, drop);
      && t <= s && (forall c <- s[|t|..] :: c in drop) && (t != [] ==> t[|t| - 1] !in drop)
  {
    if s != [] && s[|s| - 1] in drop {
      TrimRightIs(s[..|s| - 1], drop);
      var t := TrimRight(s, drop);
      assert s[|t|..] == s[..|s| - 1][|t|..] + [s[|s| - 1]];
    }
  }

  lemma {:induction false} TrimLeftIs(s: string, drop: set<char>)
    ensures var t := TrimLeft(s, drop);
      && |t| <= |s| && t == s[|s| - |t|..] && (forall c <- s[..|s| - |t|] :: c in drop) && (t != [] ==> t[0] !in drop)
  {
    if s != [] && s[0] in drop {
      TrimLeftIs(s[1..], drop);
      var t := TrimLeft(s, drop);
      assert s[..|s| - |t|] == [s[0]] + s[1..][..|s| - 1 - |t|];
    }
  }

  /** Something of the text is no blank. */
  predicate HasText(s: string) {
    exists c <- s :: c != ' ' && c != '\t' && c != '\n' && c != '\r'
  }

  lemma TrimIsEmptyIff(s: string)
    ensures Trim(s) != "" <==> HasText(s)
  {
    var r := TrimRight(s, BLANKS);
    TrimRightIs(s, BLANKS);
    TrimLeftIs(r, BLANKS);
    if Trim(s) != "" {
      assert Trim(s)[0] in r && Trim(s)[0] in s;
    }
    if c :| c in s && c !in BLANKS {
      assert s == r + s[|r|..];
      assert c in r && r[..|r|] == r;
    }
  }

  /** A path that starts with a slash, ends with none, climbs nowhere, has no braces, and meets no own prefix. */
  ghost predicate MayServe(prefix: string) {
    && |prefix| > 1 && prefix[0] == '/' && prefix[|prefix| - 1] != '/'
    && (forall segment <- Split(prefix) :: segment != "..") && (forall c <- prefix :: c != '{' && c != '}')
    && Apart(prefix, "/api/admin/gateway") && Apart(prefix, "/api/gateway") && Apart(prefix, "/keepup-gateway")
  }

  /** Neither path lies under the other, segment by segment. */
  predicate Apart(a: string, b: string) {
    !(Split(a) <= Split(b)) && !(Split(b) <= Split(a))
  }

  lemma ApartIff(a: string, b: string)
    ensures Apart(a, b) <==> a != b && !(a + "/" <= b) && !(b + "/" <= a)
  {
    CoversBySegments(Route("", a, [], false, ""), b);
    CoversBySegments(Route("", b, [], false, ""), a);
  }

  lemma ServableIff(prefix: string)
    ensures Servable(prefix) <==> MayServe(prefix)
  {
    OffTheOwnIff(prefix);
    hide Apart, Split;
  }

  lemma OffTheOwnIff(prefix: string)
    ensures (forall own <- OWN_PREFIXES :: prefix != own && !(own + "/" <= prefix) && !(prefix + "/" <= own))
       <==> Apart(prefix, "/api/admin/gateway") && Apart(prefix, "/api/gateway") && Apart(prefix, "/keepup-gateway")
  {
    hide Apart;
    var a, b, c := "/api/admin/gateway", "/api/gateway", "/keepup-gateway";
    ApartIff(prefix, a);
    ApartIff(prefix, b);
    ApartIff(prefix, c);
    assert forall own :: own in OWN_PREFIXES <==> own == a || own == b || own == c by {
      assert OWN_PREFIXES == [a, b, c];
    }
  }

  /** A web address of a host, without a query or a fragment. */
  predicate MayReach(a: Address) {
    a.scheme in {"http", "https"} && a.netloc != "" && !a.extra
  }

  /** Known methods, a known kind of sign-in, a permission with some text, nobody's own headers, positive numbers. */
  predicate MaySet(s: Settings) {
    && (forall m <- s.methods :: m in {"GET", "HEAD", "POST", "PUT", "PATCH", "DELETE", "OPTIONS"})
    && s.auth in {"", "none", "session"}
    && (s.permission.Some? ==> HasText(s.permission.value))
    && (forall h <- s.headers :: |h| < 9 || h[..9] != "x-keepup-")
    && (forall n <- s.numbers :: n >= 1)
  }

  lemma FitIff(s: Settings)
    ensures Fit(s) <==> MaySet(s)
  {
    if s.permission.Some? { TrimIsEmptyIff(s.permission.value); }
    forall h | h in s.headers ensures "x-keepup-" <= h <==> !(|h| < 9 || h[..9] != "x-keepup-") {
    }
  }

  /** Its prefix, trailing slashes off, may be served, and its addresses and settings are in order. */
  ghost predicate MayStand(e: Entry) {
    && |e.prefix| > 0 && e.prefix[0] == '/' && MayServe(TrimRight(e.prefix, {'/'}))
    && |e.upstreams| >= 1 && (forall a <- e.upstreams :: MayReach(a)) && MaySet(e.settings)
  }

  lemma ValidIff(e: Entry)
    ensures Valid(e) <==> MayStand(e)
  {
    ServableIff(TrimRight(e.prefix, {'/'}));
    FitIff(e.settings);
    forall a | a in e.upstreams ensures Reachable(a) <==> MayReach(a) {}
    hide Servable, MayServe, Fit, MaySet, Reachable, MayReach;
  }

  /** The name of an entry: its id or, without one, its prefix as written. */
  function NameOf(e: Entry): string {
    if e.id == "" then e.prefix else e.id
  }

  /** Its prefix as it is served. */
  function PathOf(e: Entry): string {
    TrimRight(e.prefix, {'/'})
  }

  /** The route an entry stands for. */
  function Parsed(e: Entry): Route {
    Route(if e.id != "" then e.id else e.prefix, TrimRight(e.prefix, {'/'}), Upstreams(e.upstreams),
          e.settings.strip, "")
  }

  function ParsedAll(entries: seq<Entry>): (routes: seq<Route>)
    ensures |routes| == |entries|
    ensures forall i :: 0 <= i < |entries| ==> routes[i] == Parsed(entries[i])
  {
    if entries == [] then [] else [Parsed(entries[0])] + ParsedAll(entries[1..])
  }

  // ---------- the table a config declares ----------

  datatype TableError = Unservable(entry: nat) | IdTwice(id: string) | PrefixTwice(id: string)

  /** The nth route uses neither an id nor a prefix of a route before it. */
  predicate New(routes: seq<Route>, n: nat)
    requires n < |routes|
  {
    forall i :: 0 <= i < n ==> routes[i].id != routes[n].id && routes[i].prefix != routes[n].prefix
  }

  predicate Distinct(routes: seq<Route>) {
    forall n :: 0 <= n < |routes| ==> New(routes, n)
  }

  function Ids(routes: seq<Route>): set<string> {
    set r <- routes :: r.id
  }

  function Prefixes(routes: seq<Route>): set<string> {
    set r <- routes :: r.prefix
  }

  lemma NewIff(routes: seq<Route>, n: nat)
    requires n < |routes|
    ensures New(routes, n) <==> routes[n].id !in Ids(routes[..n]) && routes[n].prefix !in Prefixes(routes[..n])
  {
    forall i | 0 <= i < n ensures routes[i] in routes[..n] {
      assert routes[..n][i] == routes[i];
    }
  }

  lemma OneMore(routes: seq<Route>, n: nat)
    requires n < |routes|
    ensures Ids(routes[..n + 1]) == Ids(routes[..n]) + {routes[n].id}
    ensures Prefixes(routes[..n + 1]) == Prefixes(routes[..n]) + {routes[n].prefix}
  {
    assert routes[..n + 1] == routes[..n] + [routes[n]];
  }

  /** What is wrong with the nth entry, the ones before it being right. */
  function Problem(entries: seq<Entry>, n: nat): Option<TableError>
    requires n < |entries|
  {
    var routes := ParsedAll(entries);
    if !Valid(entries[n]) then Some(Unservable(n))
    else if routes[n].id in Ids(routes[..n]) then Some(IdTwice(routes[n].id))
    else if routes[n].prefix in Prefixes(routes[..n]) then Some(PrefixTwice(routes[n].id))
    else None
  }

  lemma NoProblemIff(entries: seq<Entry>, n: nat)
    requires n < |entries|
    ensures Problem(entries, n).None? <==> Valid(entries[n]) && New(ParsedAll(entries), n)
  {
    NewIff(ParsedAll(entries), n);
  }

  /** A table can be served: each entry can, and no id or prefix stands twice. */
  predicate Served(entries: seq<Entry>) {
    (forall e <- entries :: Valid(e)) && Distinct(ParsedAll(entries))
  }

  function Longest(r: Route): int {
    -|r.prefix|
  }

  /** The routes in the order the gateway keeps them: longest prefix first, ties as declared. */
  ghost predicate LongestFirst(table: seq<Route>, routes: seq<Route>) {
    && (forall i, j :: 0 <= i < j < |table| ==> |table[i].prefix| >= |table[j].prefix|)
    && multiset(table) == multiset(routes)
    && forall k :: StableSort.Of(table, Longest, k) == StableSort.Of(routes, Longest, k)
  }

  lemma SortedIsLongestFirst(routes: seq<Route>)
    ensures LongestFirst(StableSort.By(routes, Longest), routes)
  {
    StableSort.ByIsStable(routes, Longest);
    var table := StableSort.By(routes, Longest);
    forall i, j | 0 <= i < j < |table| ensures |table[i].prefix| >= |table[j].prefix| {
      assert Longest(table[i]) <= Longest(table[j]);
    }
  }

  /** parse_table: refuses at the first entry that cannot be served or uses an id or a prefix again. */
  method ParseTable(entries: seq<Entry>) returns (r: Result<seq<Route>, TableError>)
    ensures r.Ok? <==> Served(entries)
    ensures r.Ok? ==> LongestFirst(r.value, ParsedAll(entries))
    ensures r.Err? ==>
      exists n ::
        0 <= n < |entries| && Problem(entries, n) == Some(r.error)
        && forall k :: 0 <= k < n ==> Problem(entries, k).None?
  {
    hide New, Ids, Prefixes, Valid, Parsed;
    var seenIds: set<string>, seenPrefixes: set<string> := {}, {};
    var routes: seq<Route> := [];
    ghost var all := ParsedAll(entries);
    assert Ids([]) == {} && Prefixes([]) == {} by { NoneYet(); }
    while |routes| < |entries|
      invariant routes <= all
      invariant seenIds == Ids(routes) && seenPrefixes == Prefixes(routes)
      invariant forall k :: 0 <= k < |routes| ==> Problem(entries, k).None?
      decreases |entries| - |routes|
    {
      ghost var n := |routes|;
      assert all[..n] == routes;
      OneMore(all, n);
      if !Valid(entries[|routes|]) {
        assert entries[n] in entries && Problem(entries, n) == Some(Unservable(n));
        return Err(Unservable(|routes|));
      }
      var route := Parsed(entries[|routes|]);
      if route.id in seenIds {
        NewIff(all, n);
        assert Problem(entries, n) == Some(IdTwice(route.id));
        return Err(IdTwice(route.id));
      }
      if route.prefix in seenPrefixes {
        NewIff(all, n);
        assert Problem(entries, n) == Some(PrefixTwice(route.id));
        return Err(PrefixTwice(route.id));
      }
      seenIds := seenIds + {route.id};
      seenPrefixes := seenPrefixes + {route.prefix};
      routes := routes + [route];
      assert routes == all[..n + 1];
    }
    assert routes == all;
    forall k | 0 <= k < |entries| ensures Valid(entries[k]) && New(all, k) {
      NoProblemIff(entries, k);
    }
    SortedIsLongestFirst(routes);
    r := Ok(StableSort.By(routes, Longest));
  }

  /** The first entry at fault: it may not stand in a table, or repeats a name or else a prefix of one before it. */
  ghost predicate FirstFault(entries: seq<Entry>, n: nat, error: TableError)
    requires n < |entries|
  {
    && (forall k :: 0 <= k < n ==> MayStand(entries[k]))
    && (error.Unservable? <==> !MayStand(entries[n]))
    && (error.Unservable? ==> error.entry == n)
    && (error.IdTwice? <==> MayStand(entries[n]) && exists i :: 0 <= i < n && NameOf(entries[i]) == NameOf(entries[n]))
    && (error.PrefixTwice? ==> exists i :: 0 <= i < n && PathOf(entries[i]) == PathOf(entries[n]))
  }

  /** A route is its entry: name, path, addresses without trailing slashes, and whether it strips. */
  lemma {:induction false} ParsedIs(e: Entry)
    ensures var r := Parsed(e);
      && r.id == NameOf(e) && r.prefix == PathOf(e) && r.strip == e.settings.strip && |r.upstreams| == |e.upstreams|
      && forall i :: 0 <= i < |e.upstreams| ==> r.upstreams[i] == TrimRight(e.upstreams[i].text, {'/'})
  {
    UpstreamsAre(e.upstreams);
  }

  lemma {:induction false} UpstreamsAre(addresses: seq<Address>)
    ensures forall i :: 0 <= i < |addresses| ==> Upstreams(addresses)[i] == TrimRight(addresses[i].text, {'/'})
  {
    if addresses != [] {
      UpstreamsAre(addresses[1..]);
      assert forall i :: 0 < i < |addresses| ==> addresses[1..][i - 1] == addresses[i];
    }
  }

  lemma NamesAndPathsAre(entries: seq<Entry>)
    ensures forall i :: 0 <= i < |entries| ==>
      ParsedAll(entries)[i].id == NameOf(entries[i]) && ParsedAll(entries)[i].prefix == PathOf(entries[i])
  {
  }

  lemma RepeatsIff(routes: seq<Route>, n: nat)
    requires n < |routes|
    ensures routes[n].id in Ids(routes[..n]) <==> exists i :: 0 <= i < n && routes[i].id == routes[n].id
    ensures routes[n].prefix in Prefixes(routes[..n]) <==> exists i :: 0 <= i < n && routes[i].prefix == routes[n].prefix
  {
    assert forall i :: 0 <= i < n ==> routes[..n][i] == routes[i] && routes[i] in routes[..n];
  }

  lemma ProblemIs(entries: seq<Entry>, n: nat, error: TableError)
    requires n < |entries| && Problem(entries, n) == Some(error)
    requires forall k :: 0 <= k < n ==> Problem(entries, k).None?
    ensures FirstFault(entries, n, error)
  {
    hide Valid, MayStand, Ids, Prefixes, NameOf, PathOf, Parsed;
    forall k | 0 <= k <= n ensures Valid(entries[k]) <==> MayStand(entries[k]) { ValidIff(entries[k]); }
    NamesAndPathsAre(entries);
    RepeatsIff(ParsedAll(entries), n);
    forall k | 0 <= k < n ensures Valid(entries[k]) { assert Problem(entries, k).None?; }
  }

  /** A table is served exactly when each entry may stand in it and no two share a name or a prefix. */
  lemma ServedIff(entries: seq<Entry>)
    ensures Served(entries) <==>
      && (forall e <- entries :: MayStand(e))
      && forall i, j :: 0 <= i < j < |entries| ==>
           NameOf(entries[i]) != NameOf(entries[j]) && PathOf(entries[i]) != PathOf(entries[j])
  {
    hide Valid, MayStand, NameOf, PathOf, Parsed, Distinct;
    forall e | e in entries ensures Valid(e) <==> MayStand(e) { ValidIff(e); }
    NamesAndPathsAre(entries);
    DistinctIff(ParsedAll(entries));
  }

  lemma DistinctIff(routes: seq<Route>)
    ensures Distinct(routes) <==>
            forall i, j :: 0 <= i < j < |routes| ==> routes[i].id != routes[j].id && routes[i].prefix != routes[j].prefix
  {
    if Distinct(routes) {
      forall i, j | 0 <= i < j < |routes| ensures routes[i].id != routes[j].id && routes[i].prefix != routes[j].prefix {
        assert New(routes, j);
      }
    }
  }

  lemma NoneYet()
    ensures Ids([]) == {} && Prefixes([]) == {}
  {
  }

  /** A table that was accepted answers every path the same in any order, the sorted one included. */
  lemma AcceptedTableIsOrderIndependent(entries: seq<Entry>)
    requires Served(entries)
    ensures OrderIndependent(ParsedAll(entries))
  {
    var routes := ParsedAll(entries);
    forall a, b | a in routes && b in routes && a.prefix == b.prefix ensures a == b {
      var i :| 0 <= i < |routes| && routes[i] == a;
      var j :| 0 <= j < |routes| && routes[j] == b;
      assert New(routes, i) && New(routes, j);
      assert i == j;
    }
    OrderIndependentIff(routes);
  }
}
