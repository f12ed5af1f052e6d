/** The client's display helpers (client/src/utils/formatters.js): relative
    dates, truncation, reading time, initials, star ratings, percentages,
    slugs, the API error message and the e-mail shape check. */
module Formatters {
  import opened Text
  import ReviewModel

  // ---------------------------------------------------------------- dates

  const MsPerDay: int := 1000 * 60 * 60 * 24

  /** `Math.floor((now - date) / msPerDay)`: Dafny's division floors for a
      positive divisor, so the day count is exact for past and future dates. */
  function DaysBetween(dateMs: int, nowMs: int): (d: int)
    ensures d * MsPerDay <= nowMs - dateMs < (d + 1) * MsPerDay
  {
    (nowMs - dateMs) / MsPerDay
  }

  /** `formatDate` once the day count is known. Each bucket prints the whole
      number of weeks, months (of 30 days) or years (of 365 days) that have
      passed, always with the plural suffix. A date in the future gives a
      negative count, which falls into the "days ago" bucket. */
  function FormatDate(days: int): (r: string)
    ensures days == 0 ==> r == "Today"
    ensures days == 1 ==> r == "Yesterday"
    ensures 2 <= days < 7 ==> r == NatToString(days) + " days ago"
    ensures days < 0 ==> r == "-" + NatToString(-days) + " days ago"
    ensures 7 <= days < 30 ==>
      exists w: nat :: 1 <= w <= 4 && 7 * w <= days < 7 * (w + 1) && r == NatToString(w) + " weeks ago"
    ensures 30 <= days < 365 ==>
      exists m: nat :: 1 <= m <= 12 && 30 * m <= days < 30 * (m + 1) && r == NatToString(m) + " months ago"
    ensures 365 <= days ==>
      exists y: nat :: 1 <= y && 365 * y <= days < 365 * (y + 1) && r == NatToString(y) + " years ago"
  {
    if days == 0 then "Today"
    else if days == 1 then "Yesterday"
    else if days < 7 then IntToString(days) + " days ago"
    else if days < 30 then NatToString(days / 7) + " weeks ago"
    else if days < 365 then NatToString(days / 30) + " months ago"
    else NatToString(days / 365) + " years ago"
  }

  // ------------------------------------------------------------ truncation

  /** `substring(0, n)` clamps `n` into `[0, |s|]`. */
  function Clamp(n: int, len: nat): (k: nat)
    ensures k <= len
    ensures 0 <= n <= len ==> k == n
  {
    if n < 0 then 0 else if n > len then len else n
  }

  /** `truncateText`: an empty text gives `""`; a text no longer than the limit
      is kept; otherwise the first `maxLength` characters, trimmed, followed by
      an ellipsis. */
  function TruncateText(text: string, maxLength: int): (r: string)
    ensures text == [] ==> r == []
    ensures |text| <= maxLength ==> r == text
    ensures |text| > maxLength && text != [] ==>
      && EndsWith(r, "...")
      && |r| <= Clamp(maxLength, |text|) + 3
      && IsTrimmed(r[..|r| - 3])
      && IsInfix(r[..|r| - 3], text[..Clamp(maxLength, |text|)])
    ensures |text| > maxLength && text != [] ==> r == Trim(text[..Clamp(maxLength, |text|)]) + "..."
  {
    if text == [] then []
    else if |text| <= maxLength then text
    else
      var kept := Trim(text[..Clamp(maxLength, |text|)]);
      assert (kept + "...")[..|kept|] == kept;
      kept + "..."
  }

  // ---------------------------------------------------------- reading time

  const WordsPerMinute: nat := 200

  /** `calculateReadingTime`: 0 for an empty text, otherwise the pieces of
      `split(/\s+/)` divided by 200 and rounded up. */
  function CalculateReadingTime(text: string): (m: nat)
    ensures m == 0 <==> text == []
    ensures text != [] ==> m * WordsPerMinute >= |SplitWhitespace(text)| > (m - 1) * WordsPerMinute
  {
    if text == [] then 0 else CeilDiv(|SplitWhitespace(text)|, WordsPerMinute)
  }

  /** The client's estimate agrees with the one the server stores on save for
      every non-empty text; for the empty text the client shows 0 minutes
      where the server stores 1. */
  lemma ClientAgreesWithServer(text: string)
    ensures text != [] ==> CalculateReadingTime(text) == ReviewModel.ReadingTime(text)
    ensures CalculateReadingTime([]) == 0 && ReviewModel.ReadingTime([]) == 1
  {
    assert SplitWhitespace([]) == [[]];
  }

  /** `formatReadingTime`. */
  function FormatReadingTime(minutes: int): (r: string)
    ensures minutes < 1 ==> r == "Less than a minute"
    ensures minutes >= 1 ==> r == NatToString(minutes) + " min read"
  {
    if minutes < 1 then "Less than a minute"
    else if minutes == 1 then "1 min read"
    else IntToString(minutes) + " min read"
  }

  // -------------------------------------------------------------- initials

  /** `parts.map(n => n[0]).join('')`: an empty part contributes `undefined`,
      which `join` renders as nothing. */
  function FirstChars(parts: seq<string>): (r: string)
    ensures |r| <= |parts|
  {
    if parts == [] then []
    else (if parts[0] == [] then [] else [parts[0][0]]) + FirstChars(parts[1..])
  }

  /** `getInitials`: `"?"` for an empty name, otherwise the upper-cased first
      characters of the space-separated parts, at most two of them. */
  function GetInitials(name: string): (r: string)
    ensures name == [] ==> r == "?"
    ensures name != [] ==> |r| <= 2 && forall i :: 0 <= i < |r| ==> !('a' <= r[i] <= 'z')
  {
    if name == [] then "?"
    else
      var u := ToUpper(FirstChars(SplitOn(name, ' ')));
      u[..if |u| < 2 then |u| else 2]
  }

  lemma SplitOnFirst(a: string, c: char, rest: string)
    requires c !in a
    ensures SplitOn(a + [c] + rest, c) == [a] + SplitOn(rest, c)
  {
    var s := a + [c] + rest;
    assert s[|a|] == c;
    assert s[..|a|] == a;
    var i := IndexOfChar(s, c);
    assert i == |a|;
    assert s[..i] == a && s[i + 1..] == rest;
  }

  /** A one-word name gives the upper-cased first letter. */
  lemma InitialsOfOneWord(word: string)
    requires word != [] && ' ' !in word
    ensures GetInitials(word) == [ToUpperChar(word[0])]
  {
    assert SplitOn(word, ' ') == [word];
    assert FirstChars([word]) == [word[0]];
  }

  /** "First Last" gives the two upper-cased first letters. */
  lemma InitialsOfTwoWords(first: string, last: string)
    requires first != [] && last != [] && ' ' !in first && ' ' !in last
    ensures GetInitials(first + " " + last) == [ToUpperChar(first[0]), ToUpperChar(last[0])]
  {
    SplitOnFirst(first, ' ', last);
    assert SplitOn(last, ' ') == [last];
    var parts := SplitOn(first + " " + last, ' ');
    assert parts == [first, last];
    assert FirstChars(parts[1..]) == [last[0]] by {
      assert parts[1..] == [last];
    }
    assert FirstChars(parts) == [first[0], last[0]];
  }

  /** A name of three or more parts gives the initials of the first two only. */
  lemma InitialsOfLongName(first: string, second: string, rest: string)
    requires first != [] && second != [] && ' ' !in first && ' ' !in second
    ensures GetInitials(first + " " + second + " " + rest) == [ToUpperChar(first[0]), ToUpperChar(second[0])]
  {
    var tail := SplitOn(rest, ' ');
    SplitOfLongName(first, second, rest);
    FirstCharsOfTwo(first, second, tail);
    var u := FirstChars([first, second] + tail);
    assert ToUpper(u)[..2] == [ToUpperChar(first[0]), ToUpperChar(second[0])];
  }

  lemma SplitOfLongName(first: string, second: string, rest: string)
    requires ' ' !in first && ' ' !in second
    ensures SplitOn(first + " " + second + " " + rest, ' ') == [first, second] + SplitOn(rest, ' ')
  {
    assert first + " " + second + " " + rest == first + [' '] + (second + [' '] + rest);
    SplitOnFirst(first, ' ', second + [' '] + rest);
    SplitOnFirst(second, ' ', rest);
  }

  lemma FirstCharsOfTwo(first: string, second: string, tail: seq<string>)
    requires first != [] && second != []
    ensures FirstChars([first, second] + tail) == [first[0], second[0]] + FirstChars(tail)
  {
    var parts := [first, second] + tail;
    assert parts[1..] == [second] + tail && parts[1..][1..] == tail;
  }

  // ------------------------------------------------------------ star rating

  /** The three star counts shown for a rating. */
  datatype Stars = Stars(full: int, half: int, empty: int)

  /** Truncation toward zero, as JavaScript's `%` uses it. */
  function Trunc(x: real): (t: int)
    ensures x >= 0.0 ==> t == x.Floor
  {
    if x >= 0.0 then x.Floor else -((-x).Floor)
  }

  /** `x % 1` in JavaScript: the fractional part, carrying the sign of `x`. */
  function FracPart(x: real): real {
    x - Trunc(x) as real
  }

  /** `getStarRating`. For a rating between 0 and 5 the counts are
      non-negative, add up to five, and show the rating rounded down to the
      nearest half star. */
  function GetStarRating(rating: real): (s: Stars)
    ensures s.half == 0 || s.half == 1
    ensures s.full + s.half + s.empty == 5
    ensures 0.0 <= rating ==>
      s.full as real + 0.5 * s.half as real <= rating < s.full as real + 0.5 * s.half as real + 0.5
    ensures 0.0 <= rating <= 5.0 ==> s.full >= 0 && s.empty >= 0
  {
    var full := rating.Floor;
    var half := if FracPart(rating) >= 0.5 then 1 else 0;
    Stars(full, half, 5 - full - half)
  }

  // ------------------------------------------------------------ percentage

  /** `Math.round`: halves round up. */
  function JsRound(x: real): (n: int)
    ensures n as real - 0.5 <= x < n as real + 0.5
  {
    (x + 0.5).Floor
  }

  /** `Math.round(value / total * 100)`; for a part of a positive whole it is
      a percentage between 0 and 100. */
  function Percentage(value: real, total: real): (p: int)
    requires total != 0.0
    ensures p as real - 0.5 <= value / total * 100.0 < p as real + 0.5
    ensures 0.0 <= value <= total ==> 0 <= p <= 100
  {
    var q := value / total;
    assert 0.0 <= value <= total ==> 0.0 <= q <= 1.0 by {
      if 0.0 <= value <= total {
        assert q * total == value;
      }
    }
    JsRound(q * 100.0)
  }

  lemma SelfQuotient(x: real)
    requires x != 0.0
    ensures x / x == 1.0
  {
  }

  /** `formatPercentage`: `"0%"` for a zero total, otherwise the rounded
      percentage followed by `%`. */
  function FormatPercentage(value: real, total: real): (r: string)
    ensures EndsWith(r, "%")
    ensures total == 0.0 ==> r == "0%"
    ensures total != 0.0 ==> r[..|r| - 1] == IntToString(Percentage(value, total))
  {
    if total == 0.0 then "0%"
    else
      var digits := IntToString(Percentage(value, total));
      assert (digits + "%")[..|digits|] == digits;
      digits + "%"
  }

  // ------------------------------------------------------------------- slug

  predicate SlugChar(c: char) {
    IsWordChar(c) || c == '-'
  }

  predicate AllSlugChars(s: string) {
    forall i :: 0 <= i < |s| ==> SlugChar(s[i])
  }

  predicate NoUpper(s: string) {
    forall i :: 0 <= i < |s| ==> !IsUpperAscii(s[i])
  }

  predicate NoDoubleDash(s: string) {
    forall i :: 0 <= i < |s| - 1 ==> !(s[i] == '-' && s[i + 1] == '-')
  }

  /** What `slugify` produces: lower-case word characters and single dashes. */
  predicate IsSlug(s: string) {
    AllSlugChars(s) && NoUpper(s) && NoDoubleDash(s)
  }

  /** `.replace(/\s+/g, '-')`: every maximal run of white space becomes one dash. */
  function DashSpaces(s: string): (r: string)
    ensures NoSpace(r)
    ensures NoUpper(s) ==> NoUpper(r)
    decreases |s|
  {
    if s == [] then []
    else if IsSpace(s[0]) then "-" + DashSpaces(s[SkipSpaces(s, 0)..])
    else [s[0]] + DashSpaces(s[1..])
  }

  lemma {:induction false} DashSpacesAfterWord(p: string, t: string)
    requires NoSpace(p)
    ensures DashSpaces(p + t) == p + DashSpaces(t)
    decreases |p|
  {
    if p != [] {
      assert p + t == [p[0]] + (p[1..] + t);
      DashSpacesAfterWord(p[1..], t);
      DashSpacesCons(p[0], p[1..] + t);
    } else {
      assert p + t == t;
    }
  }

  lemma DashSpacesCons(c: char, t: string)
    requires !IsSpace(c)
    ensures DashSpaces([c] + t) == [c] + DashSpaces(t)
  {
    assert ([c] + t)[1..] == t;
  }

  /** A run of white space starting at `i` becomes a single dash. */
  lemma DashSpacesAtRun(s: string, i: nat)
    requires i < |s| && IsSpace(s[i])
    ensures DashSpaces(s[i..]) == "-" + DashSpaces(s[SkipSpaces(s, i)..])
  {
    var t := s[i..];
    SkipSpacesShift(s, i, 0);
    assert t[SkipSpaces(t, 0)..] == s[SkipSpaces(s, i)..];
  }

  /** Replacing the white-space runs is the same as splitting on them and
      joining the pieces with dashes. */
  lemma {:induction false} DashSpacesIsJoin(s: string)
    ensures DashSpaces(s) == JoinWith(SplitWhitespace(s), '-')
    decreases |s|
  {
    var i := FindSpace(s, 0);
    if i < |s| {
      var j := SkipSpaces(s, i);
      DashSpacesIsJoin(s[j..]);
      DashSpacesFirstRun(s, i, j);
      AppendAssoc(s[..i], "-", DashSpaces(s[j..]));
      JoinFirstPiece(s, i, j);
    } else {
      assert SplitWhitespace(s) == [s];
      DashSpacesAfterWord(s, []);
      assert s + [] == s;
    }
  }

  /** The first white-space run, from `i` to `j`, becomes one dash. */
  lemma DashSpacesFirstRun(s: string, i: nat, j: nat)
    requires i == FindSpace(s, 0) < |s| && j == SkipSpaces(s, i)
    ensures DashSpaces(s) == s[..i] + ("-" + DashSpaces(s[j..]))
  {
    var w, t := s[..i], s[i..];
    assert NoSpace(w) by {
      forall k | 0 <= k < |w| ensures !IsSpace(w[k]) {
        assert w[k] == s[k];
      }
    }
    assert s == w + t;
    DashSpacesAfterWord(w, t);
    DashSpacesAtRun(s, i);
  }

  lemma AppendAssoc(a: string, b: string, c: string)
    ensures a + (b + c) == a + b + c
  {
  }

  /** Joining puts the first piece, a dash, and the rest joined. */
  lemma JoinFirstPiece(s: string, i: nat, j: nat)
    requires i == FindSpace(s, 0) < |s| && j == SkipSpaces(s, i)
    ensures JoinWith(SplitWhitespace(s), '-') == s[..i] + "-" + JoinWith(SplitWhitespace(s[j..]), '-')
  {
    var rest := SplitWhitespace(s[j..]);
    var parts := [s[..i]] + rest;
    assert SplitWhitespace(s) == parts;
    assert parts[1..] == rest;
  }

  lemma {:induction false} SkipSpacesShift(s: string, i: nat, k: nat)
    requires i + k <= |s|
    ensures SkipSpaces(s[i..], k) + i == SkipSpaces(s, i + k)
    decreases |s| - i - k
  {
    if i + k < |s| && IsSpace(s[i + k]) {
      SkipSpacesShift(s, i, k + 1);
    }
  }

  /** `.replace(/[^\w\-]+/g, '')`: drop every character that is neither a word
      character nor a dash. */
  function KeepSlugChars(s: string): (r: string)
    ensures AllSlugChars(r) && |r| <= |s|
    ensures NoUpper(s) ==> NoUpper(r)
    ensures AllSlugChars(s) ==> r == s
  {
    if s == [] then []
    else (if SlugChar(s[0]) then [s[0]] else []) + KeepSlugChars(s[1..])
  }

  /** Every slug character is kept as often as it occurs; every other one is
      dropped. */
  lemma {:induction false} KeepSlugCharsCounts(s: string, c: char)
    ensures multiset(KeepSlugChars(s))[c] == if SlugChar(c) then multiset(s)[c] else 0
  {
    if s != [] {
      assert s == [s[0]] + s[1..];
      KeepSlugCharsCounts(s[1..], c);
    }
  }

  lemma KeepSlugCharsCons(c: char, t: string)
    ensures KeepSlugChars([c] + t) == (if SlugChar(c) then [c] else []) + KeepSlugChars(t)
  {
    assert ([c] + t)[0] == c && ([c] + t)[1..] == t;
  }

  /** Filtering a concatenation filters each part, so the kept characters
      stay in their order. */
  lemma {:induction false} KeepSlugCharsAppend(a: string, b: string)
    ensures KeepSlugChars(a + b) == KeepSlugChars(a) + KeepSlugChars(b)
  {
    if a != [] {
      var head := if SlugChar(a[0]) then [a[0]] else [];
      calc {
        KeepSlugChars(a + b);
        { assert a + b == [a[0]] + (a[1..] + b); KeepSlugCharsCons(a[0], a[1..] + b); }
        head + KeepSlugChars(a[1..] + b);
        { KeepSlugCharsAppend(a[1..], b); }
        head + (KeepSlugChars(a[1..]) + KeepSlugChars(b));
        { AppendAssoc(head, KeepSlugChars(a[1..]), KeepSlugChars(b)); }
        head + KeepSlugChars(a[1..]) + KeepSlugChars(b);
        { assert a == [a[0]] + a[1..]; KeepSlugCharsCons(a[0], a[1..]); }
        KeepSlugChars(a) + KeepSlugChars(b);
      }
    } else {
      assert a + b == b;
    }
  }

  /** `.replace(/\-\-+/g, '-')`: every run of two or more dashes becomes one. */
  function CollapseDashes(s: string): (r: string)
    ensures NoDoubleDash(r) && |r| <= |s|
    ensures s != [] ==> r != [] && r[0] == s[0]
    ensures AllSlugChars(s) ==> AllSlugChars(r)
    ensures NoUpper(s) ==> NoUpper(r)
    ensures NoDoubleDash(s) ==> r == s
  {
    if |s| >= 2 && s[0] == '-' && s[1] == '-' then CollapseDashes(s[1..])
    else if s == [] then []
    else [s[0]] + CollapseDashes(s[1..])
  }

  /** The characters other than dashes, in order. */
  function WithoutDashes(s: string): string {
    if s == [] then [] else (if s[0] == '-' then [] else [s[0]]) + WithoutDashes(s[1..])
  }

  /** Collapsing only ever removes dashes. */
  lemma {:induction false} CollapseKeepsOtherChars(s: string)
    ensures WithoutDashes(CollapseDashes(s)) == WithoutDashes(s)
  {
    if |s| >= 2 && s[0] == '-' && s[1] == '-' {
      CollapseKeepsOtherChars(s[1..]);
    } else if s != [] {
      CollapseKeepsOtherChars(s[1..]);
      assert ([s[0]] + CollapseDashes(s[1..]))[1..] == CollapseDashes(s[1..]);
    }
  }

  /** `slugify`. */
  function Slugify(text: string): (r: string)
    ensures IsSlug(r)
  {
    var trimmed := Trim(ToLower(text));
    TrimKeepsNoUpper(ToLower(text));
    CollapseDashes(KeepSlugChars(DashSpaces(trimmed)))
  }

  lemma TrimKeepsNoUpper(s: string)
    requires NoUpper(s)
    ensures NoUpper(Trim(s))
  {
    var t := Trim(s);
    var k :| SpaceAround(s, t, k);
    assert forall i :: 0 <= i < |t| ==> t[i] == s[k + i];
  }

  lemma SlugHasNoSpace(s: string)
    requires AllSlugChars(s)
    ensures NoSpace(s) && IsTrimmed(s)
  {
    forall i | 0 <= i < |s|
      ensures !IsSpace(s[i])
    {
      assert SlugChar(s[i]);
    }
  }

  /** A non-empty word of lower-case word characters. */
  predicate LowerWord(w: string) {
    w != [] && forall i :: 0 <= i < |w| ==> IsWordChar(w[i]) && !IsUpperAscii(w[i])
  }

  /** Joining non-empty parts starts with the first part's first character
      and ends with the last part's last character. */
  lemma {:induction false} JoinEnds(words: seq<string>, c: char)
    requires |words| >= 1 && forall k :: 0 <= k < |words| ==> words[k] != []
    ensures var s := JoinWith(words, c); var last := words[|words| - 1];
      s != [] && s[0] == words[0][0] && s[|s| - 1] == last[|last| - 1]
    decreases |words|
  {
    if |words| > 1 {
      JoinEnds(words[1..], c);
      assert words[1..][|words| - 2] == words[|words| - 1];
    }
  }

  /** A property of every character of the parts and of the separator holds
      of every character of the joined string. */
  lemma {:induction false} JoinKeeps(words: seq<string>, c: char, ok: char -> bool)
    requires |words| >= 1 && ok(c)
    requires forall k, i :: 0 <= k < |words| && 0 <= i < |words[k]| ==> ok(words[k][i])
    ensures forall i :: 0 <= i < |JoinWith(words, c)| ==> ok(JoinWith(words, c)[i])
    decreases |words|
  {
    if |words| > 1 {
      var s, w, t := JoinWith(words, c), words[0], JoinWith(words[1..], c);
      JoinKeeps(words[1..], c, ok);
      assert forall j :: 0 <= j < |t| ==> ok(t[j]);
      assert s == w + [c] + t;
      forall i | 0 <= i < |s| ensures ok(s[i]) {
        if i < |w| {
          assert s[i] == words[0][i];
        } else if i == |w| {
          assert s[i] == c;
        } else {
          assert s[i] == t[i - |w| - 1];
        }
      }
    }
  }

  /** Non-empty parts without dashes joined by dashes have no double dash. */
  lemma {:induction false} JoinNoDoubleDash(words: seq<string>)
    requires |words| >= 1 && forall k :: 0 <= k < |words| ==> words[k] != [] && Lacks(words[k], '-')
    ensures NoDoubleDash(JoinWith(words, '-'))
    decreases |words|
  {
    if |words| > 1 {
      JoinNoDoubleDash(words[1..]);
      JoinEnds(words[1..], '-');
      var s, w, t := JoinWith(words, '-'), words[0], JoinWith(words[1..], '-');
      assert s == w + "-" + t;
      forall i | 0 <= i < |s| - 1 ensures !(s[i] == '-' && s[i + 1] == '-') {
        if i < |w| {
          assert s[i] == w[i];
        } else if i == |w| {
          assert s[i + 1] == t[0] == words[1][0];
        } else {
          assert s[i] == t[i - |w| - 1] && s[i + 1] == t[i - |w|];
        }
      }
    }
  }

  /** Parts without white space joined by single spaces have each space
      turned into a dash. */
  lemma {:induction false} JoinDashSpaces(words: seq<string>)
    requires |words| >= 1 && forall k :: 0 <= k < |words| ==> words[k] != [] && NoSpace(words[k])
    ensures DashSpaces(JoinWith(words, ' ')) == JoinWith(words, '-')
    decreases |words|
  {
    var w := words[0];
    if |words| == 1 {
      DashSpacesAfterWord(w, []);
      assert w + [] == w;
    } else {
      var t := JoinWith(words[1..], ' ');
      JoinEnds(words[1..], ' ');
      assert t[0] == words[1][0];
      assert JoinWith(words, ' ') == w + ([' '] + t);
      DashSpacesAfterWord(w, [' '] + t);
      DashSpacesAfterSpace(t);
      JoinDashSpaces(words[1..]);
      AppendAssoc(w, "-", JoinWith(words[1..], '-'));
    }
  }

  /** A single space before a non-space becomes a single dash. */
  lemma DashSpacesAfterSpace(t: string)
    requires t != [] && !IsSpace(t[0])
    ensures DashSpaces([' '] + t) == "-" + DashSpaces(t)
  {
    var u := [' '] + t;
    assert SkipSpaces(u, 1) == 1;
    assert u[1..] == t;
  }

  /** A lower-case text with no white space at its ends, whose white-space
      runs become a slug, is slugified to exactly that. */
  lemma SlugifyOfPrepared(s: string, t: string)
    requires NoUpper(s) && IsTrimmed(s) && DashSpaces(s) == t && IsSlug(t)
    ensures Slugify(s) == t
  {
    assert ToLower(s) == s;
  }

  /** Lower-case words joined by single spaces have no upper-case letter and
      no white space at either end. */
  lemma JoinSpacedPrepared(words: seq<string>)
    requires |words| >= 1 && forall k :: 0 <= k < |words| ==> LowerWord(words[k])
    ensures NoUpper(JoinWith(words, ' ')) && IsTrimmed(JoinWith(words, ' '))
  {
    JoinKeeps(words, ' ', NotUpper);
    JoinEnds(words, ' ');
    var last := words[|words| - 1];
    assert IsWordChar(words[0][0]) && IsWordChar(last[|last| - 1]);
  }

  function NotUpper(c: char): bool { !IsUpperAscii(c) }

  /** Lower-case words joined by dashes form a slug. */
  lemma JoinDashedSlug(words: seq<string>)
    requires |words| >= 1 && forall k :: 0 <= k < |words| ==> LowerWord(words[k])
    ensures IsSlug(JoinWith(words, '-'))
  {
    JoinKeeps(words, '-', SlugChar);
    JoinKeeps(words, '-', NotUpper);
    JoinNoDoubleDash(words);
  }

  /** Lower-case words joined by single spaces become the same words joined
      by dashes. */
  lemma SlugifyOfWords(words: seq<string>)
    requires |words| >= 1 && forall k :: 0 <= k < |words| ==> LowerWord(words[k])
    ensures Slugify(JoinWith(words, ' ')) == JoinWith(words, '-')
  {
    JoinSpacedPrepared(words);
    forall k | 0 <= k < |words| ensures words[k] != [] && NoSpace(words[k]) && Lacks(words[k], '-') {
      assert LowerWord(words[k]);
    }
    JoinDashSpaces(words);
    JoinDashedSlug(words);
    SlugifyOfPrepared(JoinWith(words, ' '), JoinWith(words, '-'));
  }

  /** A slug is its own slug, so slugifying twice changes nothing. */
  lemma SlugifyIdempotent(text: string)
    ensures Slugify(Slugify(text)) == Slugify(text)
  {
    var s := Slugify(text);
    assert ToLower(s) == s;
    SlugHasNoSpace(s);
    DashSpacesAfterWord(s, []);
    assert s + [] == s;
  }

  // ------------------------------------------------------------ error text

  const DefaultErrorMessage: string := "An unexpected error occurred"

  /** The first candidate that is not empty (JavaScript's falsy `""`). */
  function FirstNonEmpty(candidates: seq<string>): (r: string)
    ensures r == [] <==> forall k :: 0 <= k < |candidates| ==> candidates[k] == []
    ensures r != [] ==>
      exists k :: 0 <= k < |candidates| && candidates[k] == r && forall j :: 0 <= j < k ==> candidates[j] == []
  {
    if candidates == [] then []
    else if candidates[0] != [] then candidates[0]
    else
      var r := FirstNonEmpty(candidates[1..]);
      assert r != [] ==> exists k :: 0 <= k < |candidates| && candidates[k] == r && forall j :: 0 <= j < k ==> candidates[j] == [] by {
        if r != [] {
          var k :| 0 <= k < |candidates| - 1 && candidates[1..][k] == r && forall j :: 0 <= j < k ==> candidates[1..][j] == [];
          assert candidates[k + 1] == r;
        }
      }
      r
  }

  /** The candidate chosen is the first non-empty one. */
  lemma FirstNonEmptyPicks(candidates: seq<string>, k: nat)
    requires k < |candidates| && candidates[k] != []
    requires forall j :: 0 <= j < k ==> candidates[j] == []
    ensures FirstNonEmpty(candidates) == candidates[k]
  {
    var r := FirstNonEmpty(candidates);
    var m :| 0 <= m < |candidates| && candidates[m] == r && forall j :: 0 <= j < m ==> candidates[j] == [];
    assert !(m < k);
    assert !(k < m);
  }

  /** A failed request: `error.response?.data?.message` and `error.message`,
      either of which may be missing (`""`). */
  datatype ApiError = ApiError(responseMessage: string, message: string)

  /** `parseErrorMessage`: the server's message, else the request error's
      message, else a fixed text; never empty. */
  function ParseErrorMessage(e: ApiError): (r: string)
    ensures r != []
    ensures e.responseMessage != [] ==> r == e.responseMessage
    ensures e.responseMessage == [] && e.message != [] ==> r == e.message
    ensures e.responseMessage == [] && e.message == [] ==> r == DefaultErrorMessage
  {
    var candidates := [e.responseMessage, e.message, DefaultErrorMessage];
    assert candidates[2] != [];
    FirstMessagePicked(candidates);
    FirstNonEmpty(candidates)
  }

  /** Which of the three messages is chosen. */
  lemma FirstMessagePicked(candidates: seq<string>)
    requires |candidates| == 3 && candidates[2] != []
    ensures candidates[0] != [] ==> FirstNonEmpty(candidates) == candidates[0]
    ensures candidates[0] == [] && candidates[1] != [] ==> FirstNonEmpty(candidates) == candidates[1]
    ensures candidates[0] == [] && candidates[1] == [] ==> FirstNonEmpty(candidates) == candidates[2]
  {
    if candidates[0] != [] {
      FirstNonEmptyPicks(candidates, 0);
    } else if candidates[1] != [] {
      FirstNonEmptyPicks(candidates, 1);
    } else {
      FirstNonEmptyPicks(candidates, 2);
    }
  }

  // ----------------------------------------------------------------- e-mail

  /** A character of `[^\s@]`. */
  predicate EmailChar(c: char) {
    !IsSpace(c) && c != '@'
  }

  predicate AllEmailChars(s: string) {
    forall j :: 0 <= j < |s| ==> EmailChar(s[j])
  }

  /** `s` matches `^[^\s@]+@[^\s@]+\.[^\s@]+$` with the `@` at `i` and the
      separating dot at `k`. */
  predicate EmailSplit(s: string, i: int, k: int) {
    && 0 < i && i + 1 < k && k + 1 < |s|
    && s[i] == '@' && s[k] == '.'
    && AllEmailChars(s[..i]) && AllEmailChars(s[i + 1..k]) && AllEmailChars(s[k + 1..])
  }

  /** A dot strictly inside `d`, with text on both sides. */
  predicate HasInnerDot(d: string) {
    |d| >= 3 && '.' in d[1..|d| - 1]
  }

  /** The rule as `isValidEmail` is usually read: no white space, exactly one
      `@` with text before it, and a dot in the domain with text on both sides. */
  predicate EmailRule(s: string) {
    '@' in s &&
    var i := IndexOfChar(s, '@');
    i > 0 && AllEmailChars(s[..i]) && AllEmailChars(s[i + 1..]) && HasInnerDot(s[i + 1..])
  }

  /** `isValidEmail`: the regular expression matches exactly when the rule holds. */
  function IsValidEmail(s: string): (ok: bool)
    ensures ok <==> exists i, k :: EmailSplit(s, i, k)
  {
    EmailMatchIff(s);
    EmailRule(s)
  }

  lemma EmailMatchIff(s: string)
    ensures EmailRule(s) <==> exists i, k :: EmailSplit(s, i, k)
  {
    if EmailRule(s) {
      RuleGivesSplit(s);
    }
    if exists i, k :: EmailSplit(s, i, k) {
      var i, k :| EmailSplit(s, i, k);
      SplitGivesRule(s, i, k);
    }
  }

  lemma RuleGivesSplit(s: string)
    requires EmailRule(s)
    ensures exists i, k :: EmailSplit(s, i, k)
  {
    var i := IndexOfChar(s, '@');
    var d := s[i + 1..];
    var m :| 0 <= m < |d| - 2 && d[1..|d| - 1][m] == '.';
    var k := i + 2 + m;
    assert s[k] == '.';
    assert s[i + 1..k] == d[..m + 1];
    assert s[k + 1..] == d[m + 2..];
    assert EmailSplit(s, i, k);
  }

  lemma SplitGivesRule(s: string, i: int, k: int)
    requires EmailSplit(s, i, k)
    ensures EmailRule(s)
  {
    assert AllEmailChars(s[i + 1..]) by {
      forall j | i + 1 <= j < |s|
        ensures EmailChar(s[j])
      {
        if j < k {
          assert s[j] == s[i + 1..k][j - i - 1];
        } else if j > k {
          assert s[j] == s[k + 1..][j - k - 1];
        }
      }
    }
    assert '@' in s;
    assert IndexOfChar(s, '@') == i;
    assert s[i + 1..][1..|s| - i - 2][k - i - 2] == '.';
  }
}
