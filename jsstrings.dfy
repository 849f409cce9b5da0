/** The JavaScript string semantics the API relies on: truthiness of a
    possibly missing string, the `x || ''` and `x || null` defaults,
    `String.prototype.trim`, `includes` and `split`. */
module JsStrings {
  import opened Common

  /** `!!v` for a value that is either a string or `undefined`: only a
      non-empty string is truthy. */
  predicate Truthy(v: Option<string>) {
    v.Some? && v.value != ""
  }

  /** `v || ''`. */
  function OrEmpty(v: Option<string>): (s: string)
    ensures Truthy(v) ==> s == v.value
    ensures !Truthy(v) ==> s == ""
  {
    if Truthy(v) then v.value else ""
  }

  /** `v || null`: an empty or missing string becomes `null`. */
  function OrNull(v: Option<string>): (r: Option<string>)
    ensures r.Some? <==> Truthy(v)
    ensures r.Some? ==> r == v
  {
    if Truthy(v) then v else None
  }

  // ---------------------------------------------------------------------------
  // trim

  /** The characters `String.prototype.trim` removes: WhiteSpace and
      LineTerminator of the ECMAScript grammar. */
  predicate IsJsWhitespace(c: char) {
    c == '\t' || c == '\n' || c == '\U{000B}' || c == '\U{000C}' || c == '\r' ||
    c == ' ' || c == '\U{00A0}' || c == '\U{1680}' ||
    ('\U{2000}' <= c <= '\U{200A}') ||
    c == '\U{2028}' || c == '\U{2029}' || c == '\U{202F}' || c == '\U{205F}' ||
    c == '\U{3000}' || c == '\U{FEFF}'
  }

  predicate AllWhitespace(s: string) {
    forall i :: 0 <= i < |s| ==> IsJsWhitespace(s[i])
  }

  function TrimStart(s: string): (r: string)
    ensures |r| <= |s| && r == s[|s| - |r|..]
    ensures r != [] ==> !IsJsWhitespace(r[0])
    ensures AllWhitespace(s[..|s| - |r|])
  {
    if s != [] && IsJsWhitespace(s[0]) then
      var r := TrimStart(s[1..]);
      assert s[..|s| - |r|] == [s[0]] + s[1..][..|s[1..]| - |r|];
      r
    else s
  }

  function TrimEnd(s: string): (r: string)
    ensures |r| <= |s| && r == s[..|r|]
    ensures r != [] ==> !IsJsWhitespace(r[|r| - 1])
    ensures AllWhitespace(s[|r|..])
  {
    if s != [] && IsJsWhitespace(s[|s| - 1]) then
      var r := TrimEnd(s[..|s| - 1]);
      assert s[|r|..] == s[..|s| - 1][|r|..] + [s[|s| - 1]];
      r
    else s
  }

  /** `s.trim()`: `s` without the whitespace at either end. */
  function Trim(s: string): (r: string)
    ensures exists a, b :: 0 <= a <= b <= |s| && r == s[a..b] && AllWhitespace(s[..a]) && AllWhitespace(s[b..])
    ensures r != [] ==> !IsJsWhitespace(r[0]) && !IsJsWhitespace(r[|r| - 1])
  {
    var t := TrimStart(s);
    var r := TrimEnd(t);
    var a := |s| - |t|;
    assert r == s[a..a + |r|];
    assert s[a + |r|..] == t[|r|..];
    r
  }

  /** `s.trim()` is empty exactly when `s` consists of whitespace only. */
  lemma TrimEmptyIff(s: string)
    ensures Trim(s) == "" <==> AllWhitespace(s)
  {
    var t := TrimStart(s);
    if Trim(s) == "" {
      assert t == [];
      assert s[..|s| - |t|] == s;
    } else {
      var r := Trim(s);
      assert !IsJsWhitespace(r[0]);
      assert r[0] == t[0];
      assert t[0] == s[|s| - |t|];
    }
  }

  // ---------------------------------------------------------------------------
  // includes

  /** `sub` occurs in `s` at some position. */
  ghost predicate Occurs(s: string, sub: string) {
    exists i :: OccursAt(s, sub, i)
  }

  ghost predicate OccursAt(s: string, sub: string, i: int) {
    0 <= i <= |s| - |sub| && s[i..i + |sub|] == sub
  }

  /** `s.includes(sub)`, searching from the left. */
  function Includes(s: string, sub: string): (found: bool)
    ensures found <==> Occurs(s, sub)
    decreases |s|
  {
    OccursStep(s, sub);
    if |sub| <= |s| && s[..|sub|] == sub then true
    else if s == [] then false
    else Includes(s[1..], sub)
  }

  /** `sub` occurs in `s` either at the front or somewhere in `s[1..]`. */
  lemma OccursStep(s: string, sub: string)
    ensures Occurs(s, sub) <==>
      (|sub| <= |s| && s[..|sub|] == sub) || (s != [] && Occurs(s[1..], sub))
  {
    if |sub| <= |s| && s[..|sub|] == sub {
      assert OccursAt(s, sub, 0);
    }
    if s != [] && Occurs(s[1..], sub) {
      var i :| OccursAt(s[1..], sub, i);
      assert s[i + 1..i + 1 + |sub|] == s[1..][i..i + |sub|];
      assert OccursAt(s, sub, i + 1);
    }
    if Occurs(s, sub) {
      var i :| OccursAt(s, sub, i);
      if i > 0 {
        assert s[1..][i - 1..i - 1 + |sub|] == s[i..i + |sub|];
        assert OccursAt(s[1..], sub, i - 1);
      }
    }
  }

  // ---------------------------------------------------------------------------
  // split

  /** `s.split(sep)` for a one-character separator: always at least one
      piece, and no piece contains the separator. */
  function Split(s: string, sep: char): (parts: seq<string>)
    ensures |parts| >= 1
    ensures forall i :: 0 <= i < |parts| ==> sep !in parts[i]
    ensures |parts| > 1 <==> sep in s
  {
    if s == [] then [""]
    else
      var rest := Split(s[1..], sep);
      if s[0] == sep then [""] + rest
      else [[s[0]] + rest[0]] + rest[1..]
  }

  /** `parts.join(sep)`. */
  function Join(parts: seq<string>, sep: char): string
    requires |parts| >= 1
  {
    if |parts| == 1 then parts[0] else parts[0] + [sep] + Join(parts[1..], sep)
  }

  /** Joining the pieces restores the string that was split. */
  lemma {:induction false} JoinSplit(s: string, sep: char)
    ensures Join(Split(s, sep), sep) == s
  {
    if s != [] {
      var rest := Split(s[1..], sep);
      JoinSplit(s[1..], sep);
      if s[0] == sep {
        assert ([""] + rest)[1..] == rest;
      } else {
        var parts := [[s[0]] + rest[0]] + rest[1..];
        if |rest| == 1 {
          assert parts == [[s[0]] + rest[0]];
        } else {
          assert parts[1..] == rest[1..];
          assert Join(rest, sep) == rest[0] + [sep] + Join(rest[1..], sep);
        }
      }
    }
  }

  lemma {:induction false} SplitWithoutSeparator(w: string, sep: char)
    requires sep !in w
    ensures Split(w, sep) == [w]
  {
    if w != [] {
      SplitWithoutSeparator(w[1..], sep);
      assert [w[0]] + w[1..] == w;
    }
  }

  lemma {:induction false} SplitAtSeparator(w: string, t: string, sep: char)
    requires sep !in w
    ensures Split(w + [sep] + t, sep) == [w] + Split(t, sep)
  {
    var s := w + [sep] + t;
    if w == [] {
      assert s[1..] == t;
    } else {
      assert s[1..] == w[1..] + [sep] + t;
      SplitAtSeparator(w[1..], t, sep);
      assert [w[0]] + w[1..] == w;
    }
  }

  /** Splitting a join of separator-free pieces gives the pieces back. */
  lemma {:induction false} SplitJoin(parts: seq<string>, sep: char)
    requires |parts| >= 1
    requires forall i :: 0 <= i < |parts| ==> sep !in parts[i]
    ensures Split(Join(parts, sep), sep) == parts
  {
    if |parts| == 1 {
      SplitWithoutSeparator(parts[0], sep);
    } else {
      SplitJoin(parts[1..], sep);
      SplitAtSeparator(parts[0], Join(parts[1..], sep), sep);
      assert [parts[0]] + parts[1..] == parts;
    }
  }
}
