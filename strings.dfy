/**
 * The string operations the importer relies on: `str.lower()`, `str.strip()` and
 * `str.replace(ch, "")`, over ASCII letters and ASCII whitespace.
 */
module Strings {

  predicate IsUpper(c: char) { 'A' <= c <= 'Z' }

  /**
   * The ASCII characters `str.strip()` removes: space, tab, line feed, vertical tab,
   * form feed, carriage return, and the separators 0x1C-0x1F.
   */
  predicate IsSpace(c: char) {
    c == ' ' || c == '\t' || c == '\n' || c == '\r' || c as int == 11 || c as int == 12
    || 28 <= c as int <= 31
  }

  function LowerChar(c: char): (r: char)
    ensures !IsUpper(r)
    ensures IsSpace(r) <==> IsSpace(c)
    ensures !IsUpper(c) ==> r == c
  {
    if IsUpper(c) then (c as int + 32) as char else c
  }

  /** `s.lower()` */
  function Lower(s: string): (r: string)
    ensures |r| == |s|
    ensures forall i :: 0 <= i < |s| ==> r[i] == LowerChar(s[i])
  {
    if s == [] then [] else [LowerChar(s[0])] + Lower(s[1..])
  }

  /** `s.replace(ch, "")` */
  function Without(s: string, ch: char): (r: string)
    ensures ch !in r
    ensures |r| <= |s|
    ensures forall x :: x in r ==> x in s
  {
    if s == [] then [] else (if s[0] == ch then [] else [s[0]]) + Without(s[1..], ch)
  }

  /** `s.lstrip()` */
  function TrimStart(s: string): string
  {
    if s != [] && IsSpace(s[0]) then TrimStart(s[1..]) else s
  }

  /** `s.rstrip()` */
  function TrimEnd(s: string): string
  {
    if s != [] && IsSpace(s[|s| - 1]) then TrimEnd(s[..|s| - 1]) else s
  }

  /** `s.strip()` */
  function Trim(s: string): string
  {
    TrimEnd(TrimStart(s))
  }

  /** `not s or not s.strip()` */
  predicate IsBlank(s: string) { Trim(s) == [] }

  /**
   * `lstrip` removes a prefix of whitespace and nothing else: what remains is a suffix
   * of `s` that is empty or starts with a non-space character.
   */
  lemma {:induction false} TrimStartShape(s: string)
    ensures var r := TrimStart(s);
      && |r| <= |s|
      && (forall i :: 0 <= i < |r| ==> r[i] == s[|s| - |r| + i])
      && (r == [] || !IsSpace(r[0]))
      && (forall i :: 0 <= i < |s| - |r| ==> IsSpace(s[i]))
    decreases |s|
  {
    if s != [] && IsSpace(s[0]) {
      var t := s[1..];
      TrimStartShape(t);
      var r := TrimStart(t);
      assert TrimStart(s) == r;
      assert forall i :: 0 <= i < |r| ==> r[i] == s[|s| - |r| + i];
    }
  }

  /**
   * `rstrip` removes a suffix of whitespace and nothing else: what remains is a prefix
   * of `s` that is empty or ends with a non-space character.
   */
  lemma {:induction false} TrimEndShape(s: string)
    ensures var r := TrimEnd(s);
      && |r| <= |s|
      && (forall i :: 0 <= i < |r| ==> r[i] == s[i])
      && (r == [] || !IsSpace(r[|r| - 1]))
      && (forall i :: |r| <= i < |s| ==> IsSpace(s[i]))
    decreases |s|
  {
    if s != [] && IsSpace(s[|s| - 1]) {
      TrimEndShape(s[..|s| - 1]);
    }
  }

  /** `strip` leaves a string that is empty or starts and ends with a non-space character. */
  lemma TrimShape(s: string)
    ensures var r := Trim(s);
      && |r| <= |s|
      && (r == [] || (!IsSpace(r[0]) && !IsSpace(r[|r| - 1])))
  {
    var m := TrimStart(s);
    TrimStartShape(s);
    TrimEndShape(m);
    var r := TrimEnd(m);
    if r != [] {
      assert r[0] == m[0];
    }
  }

  /** Lower-casing works character by character, so it distributes over concatenation. */
  lemma LowerAppend(u: string, v: string)
    ensures Lower(u + v) == Lower(u) + Lower(v)
  {
    var l, r := Lower(u + v), Lower(u) + Lower(v);
    forall i | 0 <= i < |l| ensures l[i] == r[i] {
      if i < |u| {
        assert (u + v)[i] == u[i];
      } else {
        assert (u + v)[i] == v[i - |u|];
      }
    }
    assert l == r;
  }

  lemma LowerOfLower(s: string)
    ensures Lower(Lower(s)) == Lower(s)
  {
    assert forall i :: 0 <= i < |s| ==> Lower(Lower(s))[i] == Lower(s)[i];
  }

  lemma LowerUnchanged(s: string)
    requires forall x :: x in s ==> !IsUpper(x)
    ensures Lower(s) == s
  {
    assert forall i :: 0 <= i < |s| ==> Lower(s)[i] == s[i];
  }

  /** A string is blank exactly when every character of it is whitespace. */
  lemma BlankIffAllSpace(s: string)
    ensures IsBlank(s) <==> forall i :: 0 <= i < |s| ==> IsSpace(s[i])
  {
    var m := TrimStart(s);
    TrimStartShape(s);
    TrimEndShape(m);
    if m != [] {
      assert m[0] == s[|s| - |m|] && !IsSpace(m[0]);
    }
  }

  /** Stripping twice is stripping once. */
  lemma TrimIdempotent(s: string)
    ensures Trim(Trim(s)) == Trim(s)
  {
    var r := Trim(s);
    TrimShape(s);
    if r != [] {
      assert TrimStart(r) == r;
      assert TrimEnd(r) == r;
    }
  }

  lemma {:induction false} TrimStartLower(s: string)
    ensures TrimStart(Lower(s)) == Lower(TrimStart(s))
    decreases |s|
  {
    if s != [] {
      var l := Lower(s);
      assert l[0] == LowerChar(s[0]) && l[1..] == Lower(s[1..]);
      if IsSpace(s[0]) {
        TrimStartLower(s[1..]);
        assert TrimStart(l) == TrimStart(l[1..]);
        assert TrimStart(s) == TrimStart(s[1..]);
      } else {
        assert TrimStart(l) == l;
        assert TrimStart(s) == s;
      }
    }
  }

  lemma {:induction false} TrimEndLower(s: string)
    ensures TrimEnd(Lower(s)) == Lower(TrimEnd(s))
    decreases |s|
  {
    if s != [] {
      var l := Lower(s);
      var m := |s| - 1;
      assert l[m] == LowerChar(s[m]) && l[..m] == Lower(s[..m]) by {
        LowerAppend(s[..m], [s[m]]);
        assert s[..m] + [s[m]] == s;
      }
      if IsSpace(s[m]) {
        TrimEndLower(s[..m]);
        assert TrimEnd(l) == TrimEnd(l[..m]);
        assert TrimEnd(s) == TrimEnd(s[..m]);
      } else {
        assert TrimEnd(l) == l;
        assert TrimEnd(s) == s;
      }
    }
  }

  /**
   * Lower-casing and stripping commute, so the key the store builds from a stored
   * title (lower, then strip) and the key it builds from a candidate title (strip,
   * then lower) agree.
   */
  lemma TrimLowerCommute(s: string)
    ensures Trim(Lower(s)) == Lower(Trim(s))
  {
    TrimStartLower(s);
    TrimEndLower(TrimStart(s));
  }

  function DigitChar(d: nat): char
    requires d < 10
  {
    ('0' as int + d) as char
  }

  function NatToDecimal(n: nat): (r: string)
    ensures |r| >= 1
    decreases n
  {
    if n < 10 then [DigitChar(n)] else NatToDecimal(n / 10) + [DigitChar(n % 10)]
  }

  /** `str(n)` for an integer. */
  function IntToDecimal(n: int): string
  {
    if n < 0 then "-" + NatToDecimal(-n) else NatToDecimal(n)
  }

  /** What `strip` leaves is drawn from the characters of `s`. */
  lemma TrimWithin(s: string)
    ensures forall c :: c in Trim(s) ==> c in s
  {
    var m := TrimStart(s);
    TrimStartShape(s);
    TrimEndShape(m);
    forall c | c in Trim(s) ensures c in s {
      var i :| 0 <= i < |Trim(s)| && Trim(s)[i] == c;
      assert m[i] == s[|s| - |m| + i];
    }
  }

  /** `s.split(sep)`: the pieces between separators; there is always at least one. */
  function Split(s: string, sep: char): (parts: seq<string>)
    ensures |parts| >= 1
    ensures forall p :: p in parts ==> sep !in p
    decreases |s|
  {
    if s == [] then [[]]
    else
      var rest := Split(s[1..], sep);
      if s[0] == sep then [[]] + rest else [[s[0]] + rest[0]] + rest[1..]
  }

  /** `sep.join(parts)` */
  function Join(parts: seq<string>, sep: char): string
    requires |parts| >= 1
    decreases |parts|
  {
    if |parts| == 1 then parts[0] else parts[0] + [sep] + Join(parts[1..], sep)
  }

  /** Joining the pieces back with the separator gives the original string. */
  lemma {:induction false} JoinSplit(s: string, sep: char)
    ensures Join(Split(s, sep), sep) == s
    decreases |s|
  {
    if s != [] {
      var rest := Split(s[1..], sep);
      JoinSplit(s[1..], sep);
      if s[0] == sep {
        assert Split(s, sep)[1..] == rest;
      } else {
        var parts := Split(s, sep);
        if |rest| == 1 {
          assert parts == [[s[0]] + rest[0]];
        } else {
          assert parts[1..] == rest[1..];
          assert Join(rest, sep) == rest[0] + [sep] + Join(rest[1..], sep);
        }
      }
    }
  }

  /** Splitting joined pieces that hold no separator gives the pieces back. */
  lemma {:induction false} SplitJoin(parts: seq<string>, sep: char)
    requires |parts| >= 1
    requires forall p :: p in parts ==> sep !in p
    ensures Split(Join(parts, sep), sep) == parts
    decreases |parts|, |parts[0]|
  {
    var p := parts[0];
    if p == [] {
      if |parts| > 1 {
        SplitJoin(parts[1..], sep);
        assert Join(parts, sep) == [sep] + Join(parts[1..], sep);
        assert ([sep] + Join(parts[1..], sep))[1..] == Join(parts[1..], sep);
      }
    } else {
      var parts' := [p[1..]] + parts[1..];
      assert p[0] != sep by { assert p[0] in p; }
      forall q | q in parts' ensures sep !in q {
        if q == p[1..] {
          forall k | 0 <= k < |q| ensures q[k] != sep { assert q[k] == p[k + 1]; assert p[k + 1] in p; }
        }
      }
      SplitJoin(parts', sep);
      var s := Join(parts, sep);
      assert s == [p[0]] + Join(parts', sep) by {
        if |parts| > 1 {
          assert parts'[1..] == parts[1..];
        }
      }
      assert s[1..] == Join(parts', sep);
      assert p == [p[0]] + p[1..];
    }
  }
}
