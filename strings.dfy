/** Character classes and string operations shared by the frontend (JavaScript)
    and backend (Python) models. A string is a sequence of Unicode scalar values. */
module Strings {

  datatype Option<+T> = None | Some(value: T)

  function Min(a: int, b: int): int { if a <= b then a else b }

  // ---------------------------------------------------------------- characters

  predicate IsDigit(c: char) { '0' <= c <= '9' }

  predicate IsUpper(c: char) { 'A' <= c <= 'Z' }

  predicate IsLower(c: char) { 'a' <= c <= 'z' }

  predicate IsAsciiLetter(c: char) { IsUpper(c) || IsLower(c) }

  /** WhiteSpace and LineTerminator of ECMAScript: what `String.prototype.trim`
      removes and what `\s` matches in a regular expression. */
  predicate IsJsSpace(c: char) {
    c == '\t' || c == '\n' || c == '\U{B}' || c == '\U{C}' || c == '\r' || c == ' '
    || c == '\U{A0}' || c == '\U{1680}' || ('\U{2000}' <= c <= '\U{200A}')
    || c == '\U{2028}' || c == '\U{2029}' || c == '\U{202F}' || c == '\U{205F}'
    || c == '\U{3000}' || c == '\U{FEFF}'
  }

  /** Python's `str.isspace`: what `str.split()` splits on and `\s` matches. */
  predicate IsPySpace(c: char) {
    ('\t' <= c <= '\r') || ('\U{1C}' <= c <= '\U{1F}') || c == ' '
    || c == '\U{85}' || c == '\U{A0}' || c == '\U{1680}' || ('\U{2000}' <= c <= '\U{200A}')
    || c == '\U{2028}' || c == '\U{2029}' || c == '\U{202F}' || c == '\U{205F}'
    || c == '\U{3000}'
  }

  function LowerChar(c: char): (r: char)
    ensures IsUpper(c) ==> IsLower(r)
    ensures !IsUpper(c) ==> r == c
  {
    if IsUpper(c) then (c as int + 32) as char else c
  }

  /** ASCII lower-casing, which is what a JavaScript regular expression with
      the `i` flag (and no `u` flag) folds for ASCII keywords. */
  function LowerAscii(s: string): (r: string)
    ensures |r| == |s|
    ensures forall i :: 0 <= i < |s| ==> r[i] == LowerChar(s[i])
  {
    seq(|s|, i requires 0 <= i < |s| => LowerChar(s[i]))
  }

  /** Python's `str.lower` as far as ASCII is concerned: ASCII capitals fold,
      U+0130 becomes "i" followed by U+0307 and U+212A (Kelvin sign) becomes
      "k"; these are the only characters whose lower-case form contains an
      ASCII letter. Every other character is kept: it stays outside ASCII
      either way, so no ASCII keyword can start, end or pass through it. */
  function PyLower(s: string): (r: string)
    ensures |s| <= |r|
  {
    if s == [] then []
    else
      (if s[0] == '\U{130}' then "i\U{307}"
       else if s[0] == '\U{212A}' then "k"
       else [LowerChar(s[0])])
      + PyLower(s[1..])
  }

  lemma {:induction false} PyLowerAppend(a: string, b: string)
    ensures PyLower(a + b) == PyLower(a) + PyLower(b)
  {
    if a == [] {
      assert a + b == b;
    } else {
      assert (a + b)[0] == a[0] && (a + b)[1..] == a[1..] + b;
      PyLowerAppend(a[1..], b);
    }
  }

  /** Lower-casing twice is lower-casing once. */
  lemma {:induction false} PyLowerIdempotent(s: string)
    ensures PyLower(PyLower(s)) == PyLower(s)
  {
    if s != [] {
      var head := if s[0] == '\U{130}' then "i\U{307}" else if s[0] == '\U{212A}' then "k" else [LowerChar(s[0])];
      assert PyLower(s) == head + PyLower(s[1..]);
      PyLowerAppend(head, PyLower(s[1..]));
      PyLowerIdempotent(s[1..]);
      assert PyLower(head) == head by {
        if s[0] == '\U{130}' {
          assert PyLower("i\U{307}") == "i" + PyLower("\U{307}");
          assert PyLower("\U{307}") == "\U{307}" + PyLower([]);
        } else if s[0] == '\U{212A}' {
          assert PyLower("k") == "k" + PyLower([]);
        } else {
          assert PyLower(head) == [LowerChar(LowerChar(s[0]))] + PyLower([]);
        }
      }
    }
  }

  lemma {:induction false} PyLowerOfAscii(s: string)
    requires forall i :: 0 <= i < |s| ==> s[i] < '\U{80}'
    ensures PyLower(s) == LowerAscii(s)
  {
    if s != [] {
      PyLowerOfAscii(s[1..]);
    }
  }

  // ------------------------------------------------------------- substrings

  predicate OccursAt(s: string, sub: string, i: int) {
    0 <= i <= |s| - |sub| && s[i..i + |sub|] == sub
  }

  /** `s.includes(sub)` in JavaScript, `sub in s` in Python. */
  predicate Contains(s: string, sub: string) {
    exists i | 0 <= i <= |s| - |sub| :: OccursAt(s, sub, i)
  }

  /** Lower-casing keeps an occurrence: the lower-cased text holds the
      lower-cased word. */
  lemma ContainsLower(s: string, sub: string)
    requires Contains(s, sub)
    ensures Contains(PyLower(s), PyLower(sub))
  {
    var i :| 0 <= i <= |s| - |sub| && OccursAt(s, sub, i);
    var before, after := s[..i], s[i + |sub|..];
    assert s == before + sub + after;
    PyLowerAppend(before + sub, after);
    PyLowerAppend(before, sub);
    var l := PyLower(s);
    var j := |PyLower(before)|;
    assert l == PyLower(before) + PyLower(sub) + PyLower(after);
    assert l[j..j + |PyLower(sub)|] == PyLower(sub);
    assert OccursAt(l, PyLower(sub), j);
  }

  predicate StartsWith(s: string, prefix: string) {
    |prefix| <= |s| && s[..|prefix|] == prefix
  }

  predicate EndsWith(s: string, suffix: string) {
    |suffix| <= |s| && s[|s| - |suffix|..] == suffix
  }

  /** The three parts of a concatenation are its slices at the part boundaries. */
  lemma ConcatParts(a: string, b: string, c: string)
    ensures (a + b + c)[..|a|] == a
    ensures (a + b + c)[|a|..|a| + |b|] == b
    ensures (a + b + c)[|a| + |b|..] == c
  {
  }

  /** Every character of an occurring substring is a character of the string. */
  lemma ContainsChar(s: string, sub: string, k: int)
    requires Contains(s, sub) && 0 <= k < |sub|
    ensures sub[k] in s
  {
    var i :| 0 <= i <= |s| - |sub| && OccursAt(s, sub, i);
    assert s[i..i + |sub|][k] == s[i + k];
  }

  // ------------------------------------------------------------- trimming

  predicate IsBlank(s: string) {
    forall i :: 0 <= i < |s| ==> IsJsSpace(s[i])
  }

  /** The end of the run of spaces that starts at `k`. */
  function SpacesFrom(s: string, k: nat): (n: nat)
    requires k <= |s|
    ensures k <= n <= |s|
    ensures forall i :: k <= i < n ==> IsJsSpace(s[i])
    ensures n < |s| ==> !IsJsSpace(s[n])
    decreases |s| - k
  {
    if k < |s| && IsJsSpace(s[k]) then SpacesFrom(s, k + 1) else k
  }

  /** The start of the run of spaces that ends just before `n`. */
  function SpacesBelow(s: string, n: nat): (m: nat)
    requires n <= |s|
    ensures m <= n
    ensures forall i :: m <= i < n ==> IsJsSpace(s[i])
    ensures m > 0 ==> !IsJsSpace(s[m - 1])
  {
    if n > 0 && IsJsSpace(s[n - 1]) then SpacesBelow(s, n - 1) else n
  }

  function TrimStart(s: string): (r: string)
    ensures |r| <= |s| && r == s[|s| - |r|..]
    ensures forall i :: 0 <= i < |s| - |r| ==> IsJsSpace(s[i])
    ensures r != [] ==> !IsJsSpace(r[0])
  {
    s[SpacesFrom(s, 0)..]
  }

  function TrimEnd(s: string): (r: string)
    ensures |r| <= |s| && r == s[..|r|]
    ensures forall i :: |r| <= i < |s| ==> IsJsSpace(s[i])
    ensures r != [] ==> !IsJsSpace(r[|r| - 1])
  {
    s[..SpacesBelow(s, |s|)]
  }

  /** JavaScript's `String.prototype.trim`. */
  function Trim(s: string): (r: string)
    ensures |r| <= |s|
    ensures r == [] <==> IsBlank(s)
    ensures r != [] ==> !IsJsSpace(r[0]) && !IsJsSpace(r[|r| - 1])
    ensures exists i :: TrimmedAt(s, r, i)
  {
    TrimCore(s);
    TrimSlice(s);
    TrimEnd(TrimStart(s))
  }

  /** `r` is `s` from `i` on, less a run of whitespace at each end. */
  predicate TrimmedAt(s: string, r: string, i: int) {
    && 0 <= i <= |s| - |r| && r == s[i..i + |r|]
    && (forall k :: 0 <= k < i ==> IsJsSpace(s[k]))
    && (forall k :: i + |r| <= k < |s| ==> IsJsSpace(s[k]))
  }

  /** Trimming removes a run of whitespace at each end and keeps the middle. */
  lemma TrimSlice(s: string)
    ensures TrimmedAt(s, TrimEnd(TrimStart(s)), |s| - |TrimStart(s)|)
  {
    var t := TrimStart(s);
    var r := TrimEnd(t);
    var i := |s| - |t|;
    assert r == t[..|r|];
    forall k | i + |r| <= k < |s| ensures IsJsSpace(s[k]) {
      assert s[k] == t[k - i];
    }
  }

  lemma TrimCore(s: string)
    ensures TrimEnd(TrimStart(s)) == [] <==> IsBlank(s)
  {
    var t := TrimStart(s);
    var r := TrimEnd(t);
    var d := |s| - |t|;
    if r == [] {
      assert t == [];
    } else {
      assert t[0] == s[d];
    }
  }

  lemma TrimOfTrimmed(s: string)
    requires s == [] || (!IsJsSpace(s[0]) && !IsJsSpace(s[|s| - 1]))
    ensures Trim(s) == s
  {
  }

  /** Trimming twice is trimming once. */
  lemma TrimIdempotent(s: string)
    ensures Trim(Trim(s)) == Trim(s)
  {
    var t := Trim(s);
    TrimOfTrimmed(t);
  }

  /** An occurrence of a word that starts and ends with a non-space character
      survives trimming. */
  lemma ContainsTrim(s: string, sub: string)
    requires Contains(s, sub) && sub != []
    requires !IsJsSpace(sub[0]) && !IsJsSpace(sub[|sub| - 1])
    ensures Contains(Trim(s), sub)
  {
    ContainsTrimStart(s, sub);
    ContainsTrimEnd(TrimStart(s), sub);
  }

  lemma ContainsTrimStart(s: string, sub: string)
    requires Contains(s, sub) && sub != [] && !IsJsSpace(sub[0])
    ensures Contains(TrimStart(s), sub)
  {
    ContainsSuffix(s, sub, |s| - |TrimStart(s)|);
  }

  lemma ContainsTrimEnd(t: string, sub: string)
    requires Contains(t, sub) && sub != [] && !IsJsSpace(sub[|sub| - 1])
    ensures Contains(TrimEnd(t), sub)
  {
    var i :| 0 <= i <= |t| - |sub| && OccursAt(t, sub, i);
    var r := TrimEnd(t);
    assert t[i..i + |sub|][|sub| - 1] == t[i + |sub| - 1];
    assert r[i..i + |sub|] == t[i..i + |sub|];
    assert OccursAt(r, sub, i);
  }

  /** An occurrence whose first character lies at or after `k` is an
      occurrence in the suffix from `k`. */
  lemma ContainsSuffix(s: string, sub: string, k: int)
    requires Contains(s, sub) && sub != [] && 0 <= k <= |s|
    requires forall j :: 0 <= j < k ==> s[j] != sub[0]
    ensures Contains(s[k..], sub)
  {
    var i :| 0 <= i <= |s| - |sub| && OccursAt(s, sub, i);
    assert s[i..i + |sub|][0] == s[i];
    assert s[k..][i - k..i - k + |sub|] == s[i..i + |sub|];
    assert OccursAt(s[k..], sub, i - k);
  }

  /** A string with a non-space character at `k` trims to a non-empty string. */
  lemma NotBlankAt(s: string, k: int)
    requires 0 <= k < |s| && !IsJsSpace(s[k])
    ensures !IsBlank(s) && Trim(s) != []
  {
  }

  /** Keeps the strings that are not blank, in order (`.filter(l => l.trim())`). */
  function NonBlank(lines: seq<string>): (r: seq<string>)
    ensures |r| <= |lines|
  {
    if lines == [] then []
    else
      var last := lines[|lines| - 1];
      NonBlank(lines[..|lines| - 1]) + (if IsBlank(last) then [] else [last])
  }

  /** The kept strings are strings of the input, none of them blank. */
  lemma {:induction false} NonBlankKeeps(lines: seq<string>)
    ensures forall i :: 0 <= i < |NonBlank(lines)| ==> !IsBlank(NonBlank(lines)[i]) && NonBlank(lines)[i] in lines
  {
    if lines != [] {
      var n := |lines|;
      NonBlankKeeps(lines[..n - 1]);
      assert forall l :: l in lines[..n - 1] ==> l in lines;
    }
  }

  lemma {:induction false} NonBlankEmpty(lines: seq<string>)
    requires exists i :: 0 <= i < |lines| && !IsBlank(lines[i])
    ensures NonBlank(lines) != []
  {
    var n := |lines|;
    if IsBlank(lines[n - 1]) {
      var i :| 0 <= i < n && !IsBlank(lines[i]);
      assert lines[..n - 1][i] == lines[i];
      NonBlankEmpty(lines[..n - 1]);
    }
  }

  /** `text.split('\n').filter(line => line.trim())`. */
  function NonBlankLines(text: string): seq<string> {
    NonBlank(SplitOn(text, '\n'))
  }

  // ------------------------------------------------------- lookup tables

  /** The value of the first entry whose key is `key`, or `default` (an array
      `find` by key, a dictionary `get` with a default, `obj[key] || default`). */
  function Lookup<V>(table: seq<(string, V)>, key: string, default: V): V {
    if table == [] then default
    else if table[0].0 == key then table[0].1
    else Lookup(table[1..], key, default)
  }

  /** A key present in the table yields the value of its first entry. */
  lemma {:induction false} LookupFound<V>(table: seq<(string, V)>, key: string, default: V, i: int)
    requires 0 <= i < |table| && table[i].0 == key
    requires forall j :: 0 <= j < i ==> table[j].0 != key
    ensures Lookup(table, key, default) == table[i].1
  {
    if i > 0 {
      LookupFound(table[1..], key, default, i - 1);
    }
  }

  /** A key absent from the table yields the default. */
  lemma {:induction false} LookupMissing<V>(table: seq<(string, V)>, key: string, default: V)
    requires forall j :: 0 <= j < |table| ==> table[j].0 != key
    ensures Lookup(table, key, default) == default
  {
    if table != [] {
      LookupMissing(table[1..], key, default);
    }
  }

  /** The result is the default or the value of an entry with that key. */
  lemma {:induction false} LookupFrom<V>(table: seq<(string, V)>, key: string, default: V)
    ensures Lookup(table, key, default) == default ||
      exists j :: 0 <= j < |table| && table[j].0 == key && Lookup(table, key, default) == table[j].1
  {
    if table != [] && table[0].0 != key {
      LookupFrom(table[1..], key, default);
      var r := Lookup(table, key, default);
      if r != default {
        var j :| 0 <= j < |table[1..]| && table[1..][j].0 == key && r == table[1..][j].1;
        assert table[j + 1] == table[1..][j];
      }
    }
  }

  // ------------------------------------------------------- split and join

  function Join(parts: seq<string>, sep: string): (r: string)
  {
    if parts == [] then ""
    else if |parts| == 1 then parts[0]
    else parts[0] + sep + Join(parts[1..], sep)
  }

  /** Some `c` at or after position `k`. */
  predicate HasFrom(s: string, c: char, k: nat) {
    exists j | k <= j < |s| :: s[j] == c
  }

  /** The first `c` at or after position `k`. */
  function FirstIndexFrom(s: string, c: char, k: nat): (i: nat)
    requires HasFrom(s, c, k)
    ensures k <= i < |s| && s[i] == c
    ensures forall j :: k <= j < i ==> s[j] != c
    decreases |s| - k
  {
    if s[k] == c then k else FirstIndexFrom(s, c, k + 1)
  }

  function FirstIndex(s: string, c: char): (i: nat)
    requires c in s
    ensures i < |s| && s[i] == c && c !in s[..i]
  {
    assert HasFrom(s, c, 0);
    var i := FirstIndexFrom(s, c, 0);
    assert c !in s[..i] by {
      forall j | 0 <= j < i ensures s[..i][j] != c {
      }
    }
    i
  }

  /** Some `c` before position `n`. */
  predicate HasBelow(s: string, c: char, n: nat) {
    exists j | 0 <= j < n && j < |s| :: s[j] == c
  }

  /** The last `c` before position `n`. */
  function LastIndexBelow(s: string, c: char, n: nat): (i: nat)
    requires n <= |s| && HasBelow(s, c, n)
    ensures i < n && s[i] == c
    ensures forall k :: i < k < n ==> s[k] != c
    decreases n
  {
    if s[n - 1] == c then n - 1 else LastIndexBelow(s, c, n - 1)
  }

  /** The index of the last `c` in `s`. */
  function LastIndex(s: string, c: char): (i: nat)
    requires c in s
    ensures i < |s| && s[i] == c
    ensures forall k :: i < k < |s| ==> s[k] != c
  {
    assert HasBelow(s, c, |s|);
    LastIndexBelow(s, c, |s|)
  }

  /** `c` occurs at or after position `k` exactly when it is in `s[k..]`. */
  lemma HasFromIn(s: string, c: char, k: nat)
    requires k <= |s|
    ensures HasFrom(s, c, k) <==> c in s[k..]
  {
    if HasFrom(s, c, k) {
      var j :| k <= j < |s| && s[j] == c;
      assert s[k..][j - k] == c;
    }
    if c in s[k..] {
      var m :| 0 <= m < |s[k..]| && s[k..][m] == c;
      assert s[k + m] == c;
    }
  }

  /** The pieces of `s[k..]` cut at every `sep`. */
  function SplitFrom(s: string, sep: char, k: nat): (r: seq<string>)
    requires k <= |s|
    ensures |r| >= 1
    decreases |s| - k
  {
    if !HasFrom(s, sep, k) then [s[k..]]
    else
      var i := FirstIndexFrom(s, sep, k);
      [s[k..i]] + SplitFrom(s, sep, i + 1)
  }

  /** `s.split(sep)` in JavaScript and Python for a one-character separator. */
  function SplitOn(s: string, sep: char): (r: seq<string>)
    ensures |r| >= 1
  {
    SplitFrom(s, sep, 0)
  }

  /** The pieces of `s[k..]` hold no separator, and joining them with it
      gives `s[k..]` back. */
  lemma {:induction false} SplitFromJoin(s: string, sep: char, k: nat)
    requires k <= |s|
    ensures forall m :: 0 <= m < |SplitFrom(s, sep, k)| ==> sep !in SplitFrom(s, sep, k)[m]
    ensures Join(SplitFrom(s, sep, k), [sep]) == s[k..]
    decreases |s| - k
  {
    var r := SplitFrom(s, sep, k);
    if !HasFrom(s, sep, k) {
      HasFromIn(s, sep, k);
    } else {
      var i := FirstIndexFrom(s, sep, k);
      var rest := SplitFrom(s, sep, i + 1);
      SplitFromJoin(s, sep, i + 1);
      assert r == [s[k..i]] + rest;
      assert r[1..] == rest;
      assert sep !in s[k..i] by {
        forall j | 0 <= j < i - k ensures s[k..i][j] != sep {
          assert s[k..i][j] == s[k + j];
        }
      }
      assert s[k..] == s[k..i] + [sep] + s[i + 1..];
      forall m | 0 <= m < |r| ensures sep !in r[m] {
        if m > 0 {
          assert r[m] == rest[m - 1];
        }
      }
    }
  }

  /** The pieces hold no separator, and joining them with it gives the text back. */
  lemma SplitJoin(s: string, sep: char)
    ensures forall k :: 0 <= k < |SplitOn(s, sep)| ==> sep !in SplitOn(s, sep)[k]
    ensures Join(SplitOn(s, sep), [sep]) == s
  {
    SplitFromJoin(s, sep, 0);
    assert s[0..] == s;
  }

  /** A position holding `c` with no `c` after it is the last index of `c`. */
  lemma LastIndexUnique(s: string, c: char, p: int)
    requires 0 <= p < |s| && s[p] == c
    requires forall k :: p < k < |s| ==> s[k] != c
    ensures LastIndex(s, c) == p
  {
  }

  /** The last piece of a split. */
  function Last(r: seq<string>): string
    requires |r| > 0
  {
    r[|r| - 1]
  }

  lemma LastOfCons(x: string, t: seq<string>)
    requires |t| > 0
    ensures Last([x] + t) == Last(t)
  {
  }

  /** The last piece of the split of `s[k..]` is the suffix of `s` it is
      cut from: all of `s[k..]` when no separator follows `k`, otherwise the
      separator-free text after a separator at or after `k`. */
  lemma {:induction false} SplitFromLast(s: string, sep: char, k: nat)
    requires k <= |s|
    ensures var p := |s| - |Last(SplitFrom(s, sep, k))|;
      k <= p && Last(SplitFrom(s, sep, k)) == s[p..]
      && (forall j :: p <= j < |s| ==> s[j] != sep)
      && (HasFrom(s, sep, k) <==> k < p)
      && (k < p ==> s[p - 1] == sep)
    decreases |s| - k
  {
    if HasFrom(s, sep, k) {
      var i := FirstIndexFrom(s, sep, k);
      SplitFromLast(s, sep, i + 1);
      LastOfCons(s[k..i], SplitFrom(s, sep, i + 1));
      assert SplitFrom(s, sep, k) == [s[k..i]] + SplitFrom(s, sep, i + 1);
    }
  }

  /** The last piece of a split is the whole text when it has no separator;
      otherwise it is the separator-free suffix that follows a separator. */
  lemma SplitLast(s: string, sep: char)
    ensures sep !in s ==> Last(SplitOn(s, sep)) == s
    ensures sep in s ==> (|Last(SplitOn(s, sep))| < |s|
      && s[|s| - |Last(SplitOn(s, sep))| - 1] == sep
      && s[|s| - |Last(SplitOn(s, sep))|..] == Last(SplitOn(s, sep)))
    ensures forall j :: |s| - |Last(SplitOn(s, sep))| <= j < |s| ==> s[j] != sep
  {
    SplitFromLast(s, sep, 0);
    HasFromIn(s, sep, 0);
    assert s[0..] == s;
  }

  /** A character that is not a space at or after `k`, where the separator is
      a space, lands in a piece of the split of `s[k..]` that is not blank. */
  lemma {:induction false} SplitFromKeepsNonBlank(s: string, sep: char, k: nat, j: nat)
    requires IsJsSpace(sep) && k <= j < |s| && !IsJsSpace(s[j])
    ensures exists m :: 0 <= m < |SplitFrom(s, sep, k)| && !IsBlank(SplitFrom(s, sep, k)[m])
    decreases |s| - k
  {
    var r := SplitFrom(s, sep, k);
    if !HasFrom(s, sep, k) {
      assert r[0] == s[k..];
      assert s[k..][j - k] == s[j];
    } else {
      var i := FirstIndexFrom(s, sep, k);
      var rest := SplitFrom(s, sep, i + 1);
      assert r == [s[k..i]] + rest;
      if j < i {
        assert r[0] == s[k..i];
        assert s[k..i][j - k] == s[j];
      } else {
        assert j != i;
        SplitFromKeepsNonBlank(s, sep, i + 1, j);
        var m :| 0 <= m < |rest| && !IsBlank(rest[m]);
        assert r[m + 1] == rest[m];
      }
    }
  }

  /** Splitting on a separator that is itself a space keeps every non-space
      character inside some piece: a string that is not blank has a piece
      that is not blank. */
  lemma SplitKeepsNonBlank(s: string, sep: char)
    requires IsJsSpace(sep) && !IsBlank(s)
    ensures exists k :: 0 <= k < |SplitOn(s, sep)| && !IsBlank(SplitOn(s, sep)[k])
  {
    var j :| 0 <= j < |s| && !IsJsSpace(s[j]);
    SplitFromKeepsNonBlank(s, sep, 0, j);
    var m :| 0 <= m < |SplitFrom(s, sep, 0)| && !IsBlank(SplitFrom(s, sep, 0)[m]);
    assert !IsBlank(SplitOn(s, sep)[m]);
  }

  // ------------------------------------------------------------- numbers

  /** The end of the run of decimal digits that starts at `k`. */
  function DigitsFrom(s: string, k: nat): (n: nat)
    requires k <= |s|
    ensures k <= n <= |s|
    ensures forall j :: k <= j < n ==> IsDigit(s[j])
    ensures n < |s| ==> !IsDigit(s[n])
    decreases |s| - k
  {
    if k < |s| && IsDigit(s[k]) then DigitsFrom(s, k + 1) else k
  }

  /** A run of digits from `k` that ends at `n` is the one `DigitsFrom` finds. */
  lemma {:induction false} DigitsFromUnique(s: string, k: nat, n: nat)
    requires k <= n <= |s|
    requires forall j :: k <= j < n ==> IsDigit(s[j])
    requires n < |s| ==> !IsDigit(s[n])
    ensures DigitsFrom(s, k) == n
    decreases n - k
  {
    if k < n {
      DigitsFromUnique(s, k + 1, n);
    }
  }

  /** The number of leading decimal digits. */
  function LeadingDigits(s: string): (n: nat)
    ensures n <= |s|
    ensures forall j :: 0 <= j < n ==> IsDigit(s[j])
    ensures n < |s| ==> !IsDigit(s[n])
  {
    DigitsFrom(s, 0)
  }

  function DigitChar(d: nat): (c: char)
    requires d < 10
    ensures IsDigit(c)
  {
    ('0' as int + d) as char
  }

  /** Decimal rendering of a natural number, as JavaScript's template strings do. */
  function NatToString(n: nat): (r: string)
    ensures r != []
    ensures forall i :: 0 <= i < |r| ==> IsDigit(r[i])
  {
    if n < 10 then [DigitChar(n)] else NatToString(n / 10) + [DigitChar(n % 10)]
  }

  // ----------------------------------------------------------------- picking

  /** The entries among the first `n` of `xs` whose flag is set, in order. */
  function PickBelow(xs: seq<string>, flags: seq<bool>, n: nat): (r: seq<string>)
    requires |xs| == |flags| && n <= |xs|
    ensures |r| <= n
  {
    if n == 0 then []
    else PickBelow(xs, flags, n - 1) + (if flags[n - 1] then [xs[n - 1]] else [])
  }

  /** The entries of `xs` whose flag is set, in order. */
  function Pick(xs: seq<string>, flags: seq<bool>): (r: seq<string>)
    requires |xs| == |flags|
    ensures |r| <= |xs|
  {
    PickBelow(xs, flags, |xs|)
  }

  lemma {:induction false} PickMembersBelow(xs: seq<string>, flags: seq<bool>, n: nat, k: nat)
    requires |xs| == |flags| && k < n <= |xs|
    requires forall i, j :: 0 <= i < j < |xs| ==> xs[i] != xs[j]
    ensures xs[k] in PickBelow(xs, flags, n) <==> flags[k]
  {
    if k == n - 1 {
      PickAbsent(xs, flags, n - 1, xs[k]);
    } else {
      PickMembersBelow(xs, flags, n - 1, k);
    }
  }

  /** With distinct entries, an entry is picked exactly when its flag is set. */
  lemma PickMembers(xs: seq<string>, flags: seq<bool>, k: nat)
    requires |xs| == |flags| && k < |xs|
    requires forall i, j :: 0 <= i < j < |xs| ==> xs[i] != xs[j]
    ensures xs[k] in Pick(xs, flags) <==> flags[k]
  {
    PickMembersBelow(xs, flags, |xs|, k);
  }

  /** A value none of the first `n` entries holds is never picked from them. */
  lemma {:induction false} PickAbsent(xs: seq<string>, flags: seq<bool>, n: nat, x: string)
    requires |xs| == |flags| && n <= |xs|
    requires forall i :: 0 <= i < n ==> xs[i] != x
    ensures x !in PickBelow(xs, flags, n)
  {
    if n > 0 {
      PickAbsent(xs, flags, n - 1, x);
    }
  }

  /** Three flags pick from three entries in order. */
  lemma PickThree(xs: seq<string>, flags: seq<bool>)
    requires |xs| == 3 && |flags| == 3
    ensures Pick(xs, flags) ==
      [] + (if flags[0] then [xs[0]] else []) + (if flags[1] then [xs[1]] else [])
         + (if flags[2] then [xs[2]] else [])
  {
    assert PickBelow(xs, flags, 1) == [] + (if flags[0] then [xs[0]] else []);
    assert PickBelow(xs, flags, 2) == PickBelow(xs, flags, 1) + (if flags[1] then [xs[1]] else []);
  }
}
