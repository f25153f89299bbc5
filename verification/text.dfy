/** String helpers shared by the backend scripts and the front end: JavaScript's
    white-space class, `trim`, lower-casing, the "white-space run to dash" slug,
    `split`/`join` on a separator, decimal rendering of indices and the clean-up
    of markdown code fences around model output. Strings are `seq<char>`. */
module Text {

  /** The characters JavaScript's `\s` matches and `trim()` removes: the
      ECMAScript WhiteSpace and LineTerminator code points (tab, line feed,
      vertical tab, form feed and carriage return are U+0009..U+000D). */
  predicate IsSpace(c: char) {
    || c == ' '
    || ('\t' <= c <= '\r')
    || c == '\U{00A0}'
    || c == '\U{1680}'
    || ('\U{2000}' <= c <= '\U{200A}')
    || c == '\U{2028}'
    || c == '\U{2029}'
    || c == '\U{202F}'
    || c == '\U{205F}'
    || c == '\U{3000}'
    || c == '\U{FEFF}'
  }

  predicate AllSpace(s: string) {
    forall i :: 0 <= i < |s| ==> IsSpace(s[i])
  }

  predicate NoSpace(s: string) {
    forall i :: 0 <= i < |s| ==> !IsSpace(s[i])
  }

  /** The number of white-space characters at the front of `s`. */
  function LeadingSpaces(s: string): (n: nat)
    ensures n <= |s|
    ensures forall i :: 0 <= i < n ==> IsSpace(s[i])
    ensures n < |s| ==> !IsSpace(s[n])
    decreases |s|
  {
    if s == [] || !IsSpace(s[0]) then 0 else 1 + LeadingSpaces(s[1..])
  }

  /** The length of `s` once its trailing white space is cut off. */
  function ContentEnd(s: string): (e: nat)
    ensures e <= |s|
    ensures forall i :: e <= i < |s| ==> IsSpace(s[i])
    ensures e > 0 ==> !IsSpace(s[e - 1])
    decreases |s|
  {
    if s == [] || !IsSpace(s[|s| - 1]) then |s| else ContentEnd(s[..|s| - 1])
  }

  lemma LeadingSpacesUnique(s: string, m: nat)
    requires m <= |s|
    requires forall i :: 0 <= i < m ==> IsSpace(s[i])
    requires m < |s| ==> !IsSpace(s[m])
    ensures LeadingSpaces(s) == m
  {
  }

  lemma ContentEndUnique(s: string, m: nat)
    requires m <= |s|
    requires forall i :: m <= i < |s| ==> IsSpace(s[i])
    requires m > 0 ==> !IsSpace(s[m - 1])
    ensures ContentEnd(s) == m
  {
  }

  /** What a greedy `\s*` consumes at the front: the leading white space removed. */
  function TrimStart(s: string): string {
    s[LeadingSpaces(s)..]
  }

  /** `String.prototype.trim`: white space is dropped from either end until
      neither end is white space. */
  function Trim(s: string): (r: string)
    ensures |r| <= |s|
    decreases |s|
  {
    if s != [] && IsSpace(s[0]) then Trim(s[1..])
    else if s != [] && IsSpace(s[|s| - 1]) then Trim(s[..|s| - 1])
    else s
  }

  /** Any slice with only white space around it and none at its ends is the trim. */
  lemma {:induction false} TrimUnique(s: string, a: nat, e: nat)
    requires a <= e <= |s|
    requires forall i :: 0 <= i < a ==> IsSpace(s[i])
    requires forall i :: e <= i < |s| ==> IsSpace(s[i])
    requires a < e ==> !IsSpace(s[a]) && !IsSpace(s[e - 1])
    ensures Trim(s) == s[a..e]
    decreases |s|
  {
    if s == [] {
    } else if IsSpace(s[0]) {
      var t := s[1..];
      assert forall i :: 0 <= i < |t| ==> t[i] == s[i + 1];
      if a > 0 {
        TrimUnique(t, a - 1, e - 1);
        assert t[a - 1..e - 1] == s[a..e];
      } else {
        TrimUnique(t, |t|, |t|);
      }
    } else if IsSpace(s[|s| - 1]) {
      var t := s[..|s| - 1];
      assert forall i :: 0 <= i < |t| ==> t[i] == s[i];
      TrimUnique(t, a, e);
      assert t[a..e] == s[a..e];
    } else {
      assert a == 0 && e == |s|;
    }
  }

  /** The trim is the slice between the leading and the trailing white space,
      and it is empty exactly when the input is all white space. */
  lemma TrimSpec(s: string)
    ensures LeadingSpaces(s) + |Trim(s)| <= |s|
    ensures Trim(s) == s[LeadingSpaces(s)..LeadingSpaces(s) + |Trim(s)|]
    ensures forall i :: LeadingSpaces(s) + |Trim(s)| <= i < |s| ==> IsSpace(s[i])
    ensures Trim(s) == [] || (!IsSpace(Trim(s)[0]) && !IsSpace(Trim(s)[|Trim(s)| - 1]))
    ensures Trim(s) == [] <==> AllSpace(s)
  {
    var a := LeadingSpaces(s);
    var e := ContentEnd(s);
    if a < e {
      TrimUnique(s, a, e);
    } else {
      assert a == |s|;
      assert AllSpace(s);
      TrimUnique(s, |s|, |s|);
    }
  }

  lemma TrimStartAppend(a: string, b: string)
    ensures TrimStart(a + b) == if AllSpace(a) then TrimStart(b) else TrimStart(a) + b
  {
    var s := a + b;
    if AllSpace(a) {
      var m := |a| + LeadingSpaces(b);
      assert forall i :: |a| <= i < |s| ==> s[i] == b[i - |a|];
      LeadingSpacesUnique(s, m);
      assert s[m..] == b[LeadingSpaces(b)..];
    } else {
      var m := LeadingSpaces(a);
      LeadingSpacesUnique(s, m);
      assert s[m..] == a[m..] + b;
    }
  }

  /** Trimming ignores leading white space already removed. */
  lemma TrimOfTrimStart(s: string)
    ensures Trim(TrimStart(s)) == Trim(s)
  {
    var a := LeadingSpaces(s);
    var t := TrimStart(s);
    var e := ContentEnd(s);
    if a < e {
      TrimUnique(s, a, e);
      TrimUnique(t, 0, e - a);
      assert t[0..e - a] == s[a..e];
    } else {
      TrimSpec(s);
      TrimUnique(t, 0, 0);
    }
  }

  /** Trimming ignores a trailing white-space character. */
  lemma TrimDropsTrailingSpace(s: string, c: char)
    requires IsSpace(c)
    ensures Trim(s + [c]) == Trim(s)
  {
    var a := LeadingSpaces(s);
    var e := ContentEnd(s);
    var s' := s + [c];
    assert forall i :: 0 <= i < |s| ==> s'[i] == s[i];
    if a < e {
      TrimUnique(s, a, e);
      TrimUnique(s', a, e);
      assert s'[a..e] == s[a..e];
    } else {
      assert a == |s|;
      assert AllSpace(s);
      TrimUnique(s, |s|, |s|);
      TrimUnique(s', |s'|, |s'|);
    }
  }

  /** A string without white space at either end is its own trim. */
  lemma TrimOfTrimmed(s: string)
    requires s == [] || (!IsSpace(s[0]) && !IsSpace(s[|s| - 1]))
    ensures Trim(s) == s
  {
    TrimUnique(s, 0, |s|);
  }

  /** Trimming twice is trimming once. */
  lemma TrimIdempotent(s: string)
    ensures Trim(Trim(s)) == Trim(s)
  {
    TrimSpec(s);
    TrimOfTrimmed(Trim(s));
  }

  /** The ASCII letters `A`..`Z` lowered; every other character unchanged. */
  function LowerChar(c: char): (d: char)
    ensures IsSpace(d) <==> IsSpace(c)
    ensures !('A' <= d <= 'Z')
  {
    if 'A' <= c <= 'Z' then (c as int + 32) as char else c
  }

  /** `toLowerCase` on the ASCII range. */
  function Lower(s: string): (r: string)
    ensures |r| == |s|
    ensures forall i :: 0 <= i < |s| ==> r[i] == LowerChar(s[i])
  {
    seq(|s|, i requires 0 <= i < |s| => LowerChar(s[i]))
  }

  predicate NoUpper(s: string) {
    forall i :: 0 <= i < |s| ==> !('A' <= s[i] <= 'Z')
  }

  /** `.replace(/\s+/g, "-")`: every maximal run of white space becomes one dash. */
  function CollapseSpaces(s: string): (r: string)
    ensures |r| <= |s|
    decreases |s|
  {
    if s == [] then []
    else if IsSpace(s[0]) then "-" + CollapseSpaces(TrimStart(s[1..]))
    else [s[0]] + CollapseSpaces(s[1..])
  }

  /** The result holds no white space. */
  lemma {:induction false} CollapseSpacesNoSpace(s: string)
    ensures NoSpace(CollapseSpaces(s))
    decreases |s|
  {
    if s != [] {
      var head := if IsSpace(s[0]) then '-' else s[0];
      var t := if IsSpace(s[0]) then TrimStart(s[1..]) else s[1..];
      CollapseSpacesNoSpace(t);
      var r := CollapseSpaces(t);
      assert CollapseSpaces(s) == [head] + r;
      forall i | 0 <= i < |[head] + r| ensures !IsSpace(([head] + r)[i]) {
        if i > 0 { assert ([head] + r)[i] == r[i - 1]; }
      }
    }
  }

  /** Text without white space is left as it is. */
  lemma {:induction false} CollapseSpacesKeeps(s: string)
    requires NoSpace(s)
    ensures CollapseSpaces(s) == s
    decreases |s|
  {
    if s != [] {
      var t := s[1..];
      assert !IsSpace(s[0]);
      assert NoSpace(t) by {
        forall i | 0 <= i < |t| ensures !IsSpace(t[i]) { assert t[i] == s[i + 1]; }
      }
      CollapseSpacesKeeps(t);
      assert [s[0]] + t == s;
    }
  }

  /** No upper-case letter is introduced. */
  lemma {:induction false} CollapseSpacesNoUpper(s: string)
    requires NoUpper(s)
    ensures NoUpper(CollapseSpaces(s))
    decreases |s|
  {
    if s != [] {
      var head := if IsSpace(s[0]) then '-' else s[0];
      var k := if IsSpace(s[0]) then 1 + LeadingSpaces(s[1..]) else 1;
      var t := s[k..];
      assert t == if IsSpace(s[0]) then TrimStart(s[1..]) else s[1..];
      assert NoUpper(t) by {
        forall i | 0 <= i < |t| ensures !('A' <= t[i] <= 'Z') { assert t[i] == s[k + i]; }
      }
      CollapseSpacesNoUpper(t);
      var r := CollapseSpaces(t);
      assert CollapseSpaces(s) == [head] + r;
      forall i | 0 <= i < |[head] + r| ensures !('A' <= ([head] + r)[i] <= 'Z') {
        if i > 0 { assert ([head] + r)[i] == r[i - 1]; }
      }
    }
  }

  /** The slug used for record ids and file names: lower-cased, then each run of
      white space replaced by a single `-`. */
  function Slug(s: string): (r: string)
    ensures NoSpace(r) && NoUpper(r)
    ensures |r| <= |s|
    ensures NoSpace(s) ==> r == Lower(s)
  {
    var l := Lower(s);
    assert NoSpace(s) ==> NoSpace(l);
    CollapseSpacesNoSpace(l);
    CollapseSpacesNoUpper(l);
    if NoSpace(s) then CollapseSpacesKeeps(l); CollapseSpaces(l) else CollapseSpaces(l)
  }

  /** A white-space run between two words collapses to exactly one dash, and the
      words on either side are slugged independently. */
  lemma CollapseSpacesCons(c: char, s: string)
    requires !IsSpace(c)
    ensures CollapseSpaces([c] + s) == [c] + CollapseSpaces(s)
  {
    assert ([c] + s)[1..] == s;
  }

  lemma CollapseSpacesRun(w: string, b: string)
    requires w != [] && AllSpace(w)
    requires b == [] || !IsSpace(b[0])
    ensures CollapseSpaces(w + b) == "-" + CollapseSpaces(b)
  {
    assert (w + b)[0] == w[0];
    assert (w + b)[1..] == w[1..] + b;
    TrimStartAppend(w[1..], b);
    assert TrimStart(b) == b;
  }

  lemma DashAssoc(p: string, x: string, y: string)
    ensures p + (x + "-" + y) == (p + x) + "-" + y
  {
  }

  lemma {:induction false} CollapseSpacesSplit(a: string, w: string, b: string)
    requires w != [] && AllSpace(w)
    requires a == [] || !IsSpace(a[|a| - 1])
    requires b == [] || !IsSpace(b[0])
    ensures CollapseSpaces(a + w + b) == CollapseSpaces(a) + "-" + CollapseSpaces(b)
    decreases |a|, 1
  {
    if a == [] {
      assert a + w + b == w + b;
      CollapseSpacesRun(w, b);
    } else if IsSpace(a[0]) {
      CollapseSpacesSplitRun(a, w, b);
    } else {
      CollapseSpacesSplitWord(a, w, b);
    }
  }

  lemma {:induction false} CollapseSpacesSplitRun(a: string, w: string, b: string)
    requires w != [] && AllSpace(w)
    requires a != [] && IsSpace(a[0]) && !IsSpace(a[|a| - 1])
    requires b == [] || !IsSpace(b[0])
    ensures CollapseSpaces(a + w + b) == CollapseSpaces(a) + "-" + CollapseSpaces(b)
    decreases |a|, 0
  {
    var k := LeadingSpaces(a);
    assert 0 < k < |a|;
    var lead, rest := a[..k], a[k..];
    var x, y := CollapseSpaces(rest), CollapseSpaces(b);
    assert AllSpace(lead);
    assert rest[0] == a[k] && rest[|rest| - 1] == a[|a| - 1];
    assert CollapseSpaces(a + w + b) == "-" + CollapseSpaces(rest + w + b) by {
      assert a + w + b == lead + (rest + w + b);
      CollapseSpacesRun(lead, rest + w + b);
    }
    assert CollapseSpaces(a) == "-" + x by {
      assert a == lead + rest;
      CollapseSpacesRun(lead, rest);
    }
    assert CollapseSpaces(rest + w + b) == x + "-" + y by {
      CollapseSpacesSplit(rest, w, b);
    }
    DashAssoc("-", x, y);
  }

  lemma {:induction false} CollapseSpacesSplitWord(a: string, w: string, b: string)
    requires w != [] && AllSpace(w)
    requires a != [] && !IsSpace(a[0]) && !IsSpace(a[|a| - 1])
    requires b == [] || !IsSpace(b[0])
    ensures CollapseSpaces(a + w + b) == CollapseSpaces(a) + "-" + CollapseSpaces(b)
    decreases |a|, 0
  {
    var rest := a[1..];
    var x, y := CollapseSpaces(rest), CollapseSpaces(b);
    assert CollapseSpaces(a + w + b) == [a[0]] + CollapseSpaces(rest + w + b) by {
      assert a + w + b == [a[0]] + (rest + w + b);
      CollapseSpacesCons(a[0], rest + w + b);
    }
    assert CollapseSpaces(a) == [a[0]] + x by {
      assert a == [a[0]] + rest;
      CollapseSpacesCons(a[0], rest);
    }
    assert CollapseSpaces(rest + w + b) == x + "-" + y by {
      if rest != [] {
        assert rest[|rest| - 1] == a[|a| - 1];
      }
      CollapseSpacesSplit(rest, w, b);
    }
    DashAssoc([a[0]], x, y);
  }

  /** Removes every occurrence of `ch` (`.replace(/,/g, "")` for a comma). */
  function RemoveChar(s: string, ch: char): (r: string)
    ensures ch !in r
    ensures |r| <= |s|
    ensures ch !in s ==> r == s
    ensures forall c :: c in r ==> c in s
  {
    if s == [] then []
    else if s[0] == ch then RemoveChar(s[1..], ch)
    else [s[0]] + RemoveChar(s[1..], ch)
  }

  /** `Array.prototype.join(sep)`. */
  function Join(parts: seq<string>, sep: string): string {
    if |parts| == 0 then ""
    else if |parts| == 1 then parts[0]
    else parts[0] + sep + Join(parts[1..], sep)
  }

  lemma {:induction false} JoinAppend(parts: seq<string>, p: string, sep: string)
    requires |parts| > 0
    ensures Join(parts + [p], sep) == Join(parts, sep) + sep + p
    decreases |parts|
  {
    if |parts| == 1 {
      assert parts + [p] == [parts[0], p];
      assert [parts[0], p][1..] == [p];
    } else {
      assert (parts + [p])[1..] == parts[1..] + [p];
      JoinAppend(parts[1..], p, sep);
    }
  }

  /** `String.prototype.split` with a one-character separator: at least one
      piece, no piece contains the separator, and joining the pieces back with
      the separator restores the input. */
  function Split(s: string, sep: char): (parts: seq<string>)
    ensures |parts| >= 1
    ensures forall p :: p in parts ==> sep !in p
    ensures Join(parts, [sep]) == s
    decreases |s|
  {
    if s == [] then [""]
    else
      var rest := Split(s[1..], sep);
      if s[0] == sep then
        assert Join([""] + rest, [sep]) == [sep] + Join(rest, [sep]) by {
          assert ([""] + rest)[1..] == rest;
        }
        [""] + rest
      else
        var parts := [[s[0]] + rest[0]] + rest[1..];
        assert Join(parts, [sep]) == s by {
          if |rest| > 1 {
            assert parts[1..] == rest[1..];
            assert Join(rest, [sep]) == rest[0] + [sep] + Join(rest[1..], [sep]);
          }
        }
        assert forall p :: p in parts ==> p == [s[0]] + rest[0] || p in rest;
        parts
  }

  function DigitChar(d: nat): (c: char)
    requires d < 10
    ensures '0' <= c <= '9'
  {
    (48 + d) as char
  }

  predicate IsDigits(s: string) {
    forall i :: 0 <= i < |s| ==> '0' <= s[i] <= '9'
  }

  /** The decimal rendering of a non-negative integer (template-string `${i}`). */
  function Dec(n: nat): (r: string)
    ensures |r| >= 1 && IsDigits(r)
  {
    if n < 10 then [DigitChar(n)] else Dec(n / 10) + [DigitChar(n % 10)]
  }

  /** Reads a string of decimal digits back as a number. */
  function ParseDec(s: string): nat
    requires IsDigits(s)
  {
    if s == [] then 0 else ParseDec(s[..|s| - 1]) * 10 + (s[|s| - 1] as int - 48)
  }

  lemma {:induction false} ParseDecOfDec(n: nat)
    ensures ParseDec(Dec(n)) == n
  {
    if n >= 10 {
      var d := Dec(n);
      assert d[..|d| - 1] == Dec(n / 10);
      ParseDecOfDec(n / 10);
    }
  }

  /** Distinct numbers render to distinct decimal strings. */
  lemma DecInjective(m: nat, n: nat)
    ensures Dec(m) == Dec(n) ==> m == n
  {
    ParseDecOfDec(m);
    ParseDecOfDec(n);
  }

  /** `String.prototype.includes`. */
  predicate Contains(s: string, sub: string)
    decreases |s|
  {
    sub <= s || (s != [] && Contains(s[1..], sub))
  }

  /** `.replace(new RegExp(tag + "\\s*", "g"), "")`: every occurrence of `tag`,
      together with the white space following it, is removed, scanning left to
      right as a global regular-expression replacement does. */
  function RemoveTag(s: string, tag: string): (r: string)
    requires |tag| > 0
    ensures |r| <= |s|
    ensures tag[0] !in s ==> r == s
    decreases |s|
  {
    if s == [] then []
    else if tag <= s then RemoveTag(TrimStart(s[|tag|..]), tag)
    else [s[0]] + RemoveTag(s[1..], tag)
  }

  const JsonFence := "```json"
  const Fence := "```"

  /** The clean-up applied to model output before parsing: remove "```json"
      fences with the white space after them, then bare "```" fences with the
      white space after them, then trim. */
  function CleanModelText(s: string): string {
    Trim(RemoveTag(RemoveTag(s, JsonFence), Fence))
  }

  lemma {:induction false} RemoveTagPrefix(u: string, t: string, tag: string)
    requires |tag| > 0
    requires tag[0] !in u
    ensures RemoveTag(u + t, tag) == u + RemoveTag(t, tag)
    decreases |u|
  {
    if u != [] {
      assert (u + t)[0] == u[0];
      assert !(tag <= u + t);
      assert (u + t)[1..] == u[1..] + t;
      RemoveTagPrefix(u[1..], t, tag);
    } else {
      assert u + t == t;
    }
  }

  /** Text without backticks is only trimmed by the fence clean-up. */
  lemma CleanWithoutBackticks(s: string)
    requires '`' !in s
    ensures CleanModelText(s) == Trim(s)
  {
  }

  lemma TrimStartFence()
    ensures TrimStart(Fence) == Fence
  {
    assert Fence[0] == '`';
    LeadingSpacesUnique(Fence, 0);
  }

  lemma JsonTagAbsentFromFence()
    ensures RemoveTag(Fence, JsonFence) == Fence
  {
    assert !(JsonFence <= Fence);
    assert !(JsonFence <= Fence[1..]);
    assert !(JsonFence <= Fence[2..]);
    assert Fence[1..][1..] == Fence[2..];
    assert Fence[2..][1..] == [];
  }

  lemma TrimStartAllSpace(s: string)
    requires AllSpace(s)
    ensures TrimStart(s) == []
  {
    LeadingSpacesUnique(s, |s|);
  }

  lemma JsonFenceTail(body: string)
    ensures TrimStart(("```json\n" + body + "\n```")[|JsonFence|..]) == TrimStart(body + "\n") + Fence
  {
    var s := "```json\n" + body + "\n```";
    var u := body + "\n";
    assert s[|JsonFence|..] == "\n" + (u + Fence) by {
      assert s == JsonFence + ("\n" + (u + Fence));
    }
    assert TrimStart("\n" + (u + Fence)) == TrimStart(u + Fence) by {
      assert AllSpace("\n");
      TrimStartAppend("\n", u + Fence);
    }
    assert TrimStart(u + Fence) == TrimStart(u) + Fence by {
      TrimStartAppend(u, Fence);
      if AllSpace(u) {
        TrimStartAllSpace(u);
        TrimStartFence();
      }
    }
  }

  lemma JsonFencePass(body: string)
    requires '`' !in body
    ensures RemoveTag("```json\n" + body + "\n```", JsonFence) == TrimStart(body + "\n") + Fence
  {
    var s := "```json\n" + body + "\n```";
    var v := TrimStart(body + "\n");
    JsonFenceTail(body);
    assert JsonFence <= s;
    assert '`' !in v;
    JsonTagAbsentFromFence();
    RemoveTagPrefix(v, Fence, JsonFence);
  }

  /** A body wrapped in a "```json" fence cleans to the trimmed body. */
  lemma CleanFencedJson(body: string)
    requires '`' !in body
    ensures CleanModelText("```json\n" + body + "\n```") == Trim(body)
  {
    var u := body + "\n";
    var v := TrimStart(u);
    JsonFencePass(body);
    assert '`' !in v;
    assert RemoveTag(v + Fence, Fence) == v by {
      RemoveTagPrefix(v, Fence, Fence);
      assert RemoveTag(Fence, Fence) == [] by {
        assert Fence[|Fence|..] == [];
      }
      assert v + [] == v;
    }
    TrimOfTrimStart(u);
    TrimDropsTrailingSpace(body, '\n');
  }
}
