/**
 * The column alias resolver of lsr_core.py: export headers are normalised and looked up
 * in a fixed table of known spellings for the four canonical bibliographic fields.
 */
module ColumnAliases {
  import opened Wrappers
  import opened Strings

  /** `normalize_colname`: lower-case, then delete every space and underscore. */
  function NormalizeColname(c: string): (r: string)
    ensures ' ' !in r && '_' !in r
    ensures forall x :: x in r ==> !IsUpper(x)
    ensures |r| <= |c|
  {
    Without(Without(Lower(c), ' '), '_')
  }

  /**
   * Reference definition, character by character: spaces and underscores vanish,
   * every other character stays in place, lower-cased.
   */
  function Squash(c: string): string
  {
    if c == [] then [] else (if c[0] == ' ' || c[0] == '_' then [] else [LowerChar(c[0])]) + Squash(c[1..])
  }

  lemma {:induction false} WithoutAppend(a: string, b: string, ch: char)
    ensures Without(a + b, ch) == Without(a, ch) + Without(b, ch)
    decreases |a|
  {
    if a != [] {
      assert (a + b)[0] == a[0] && (a + b)[1..] == a[1..] + b;
      WithoutAppend(a[1..], b, ch);
    } else {
      assert a + b == b;
    }
  }

  lemma {:induction false} WithoutAbsent(s: string, ch: char)
    requires ch !in s
    ensures Without(s, ch) == s
    decreases |s|
  {
    if s != [] {
      assert s[0] in s;
      WithoutAbsent(s[1..], ch);
    }
  }

  /** `normalize_colname` keeps every character other than space and underscore. */
  lemma {:induction false} NormalizeColnameIsSquash(c: string)
    ensures NormalizeColname(c) == Squash(c)
    decreases |c|
  {
    if c != [] {
      var x := LowerChar(c[0]);
      var rest := Lower(c[1..]);
      assert Lower(c) == [x] + rest;
      assert (x == ' ') == (c[0] == ' ') && (x == '_') == (c[0] == '_');
      WithoutAppend([x], rest, ' ');
      WithoutAppend(Without([x], ' '), Without(rest, ' '), '_');
      assert Without([x], ' ') == (if x == ' ' then [] else [x]);
      assert Without(Without([x], ' '), '_') == (if x == ' ' || x == '_' then [] else [x]);
      NormalizeColnameIsSquash(c[1..]);
    }
  }

  /** Normalising a normalised header changes nothing. */
  lemma NormalizeColnameIdempotent(c: string)
    ensures NormalizeColname(NormalizeColname(c)) == NormalizeColname(c)
  {
    var y := NormalizeColname(c);
    LowerUnchanged(y);
    WithoutAbsent(y, ' ');
    WithoutAbsent(y, '_');
  }

  datatype Field = Title | Abstract | Journal | Year

  /** The keys of COLUMN_ALIASES, in the order the resolver fills them. */
  const Fields: seq<Field> := [Title, Abstract, Journal, Year]

  /**
   * COLUMN_ALIASES (lsr_core.py:12-28).  The source stores each entry as a Python set,
   * whose iteration order is unspecified; the model walks the spellings in the order
   * listed there.
   */
  function Aliases(f: Field): seq<string>
  {
    match f
    case Title => ["title", "articletitle", "documenttitle", "publicationtitle", "itemtitle", "ti"]
    case Abstract => ["abstract", "abstracttext", "abstractnote", "summary", "description", "ab"]
    case Journal => ["journal", "journal/book", "source", "sourcetitle", "publicationname", "containertitle", "so"]
    case Year => ["year", "publicationyear", "py", "date", "issued"]
  }

  /** Index of the last header whose normalised form is `k`, or -1 when none is. */
  function LastWithForm(cols: seq<string>, k: string): (i: int)
    ensures -1 <= i < |cols|
    ensures i >= 0 ==> NormalizeColname(cols[i]) == k
    ensures forall j :: i < j < |cols| ==> NormalizeColname(cols[j]) != k
    decreases |cols|
  {
    if cols == [] then -1
    else if NormalizeColname(cols[|cols| - 1]) == k then |cols| - 1
    else
      var init := cols[..|cols| - 1];
      var i := LastWithForm(init, k);
      assert forall j :: i < j < |cols| ==> NormalizeColname(cols[j]) != k by {
        forall j | i < j < |cols| ensures NormalizeColname(cols[j]) != k {
          if j < |init| {
            assert cols[j] == init[j];
          }
        }
      }
      i
  }

  /**
   * `{normalize_colname(c): c for c in df.columns}`: a normalised form is a key exactly
   * when some header has it, and it maps to the last header that has it, since a later
   * key assignment overwrites an earlier one.
   */
  function NormalizedHeaders(cols: seq<string>): (m: map<string, string>)
    ensures forall k :: k in m <==> LastWithForm(cols, k) >= 0
    ensures forall k :: k in m ==> m[k] == cols[LastWithForm(cols, k)]
    decreases |cols|
  {
    if cols == [] then map[]
    else
      var init := cols[..|cols| - 1];
      var last := cols[|cols| - 1];
      NormalizedHeaders(init)[NormalizeColname(last) := last]
  }

  /**
   * `next((normalized[a] for a in aliases if a in normalized), None)`: the header
   * behind some listed spelling, or None when no spelling occurs.
   */
  function FirstAlias(aliases: seq<string>, m: map<string, string>): (r: Option<string>)
    ensures r.None? <==> forall a :: a in aliases ==> a !in m
    ensures r.Some? ==> exists a :: a in aliases && a in m && m[a] == r.value
    decreases |aliases|
  {
    if aliases == [] then None
    else if aliases[0] in m then Some(m[aliases[0]])
    else
      assert forall a :: a in aliases ==> a == aliases[0] || a in aliases[1..];
      FirstAlias(aliases[1..], m)
  }

  /**
   * `resolve_bibliographic_columns`: exactly the four canonical fields as keys; a field
   * is None exactly when no header normalises to one of its spellings, and otherwise
   * holds an original header that does, the last one with its normalised form.
   */
  function Resolve(cols: seq<string>): (r: map<Field, Option<string>>)
    ensures r.Keys == {Title, Abstract, Journal, Year}
    ensures forall f :: f in r ==>
      (r[f].None? <==> forall c :: c in cols ==> NormalizeColname(c) !in Aliases(f))
    ensures forall f :: f in r && r[f].Some? ==>
      var k := NormalizeColname(r[f].value);
      k in Aliases(f) && LastWithForm(cols, k) >= 0 && cols[LastWithForm(cols, k)] == r[f].value
  {
    var m := NormalizedHeaders(cols);
    assert forall f :: LookupMatches(cols, Aliases(f), FirstAlias(Aliases(f), m)) by {
      forall f ensures LookupMatches(cols, Aliases(f), FirstAlias(Aliases(f), m)) {
        FirstAliasMatches(cols, Aliases(f));
      }
    }
    map f | f in {Title, Abstract, Journal, Year} :: FirstAlias(Aliases(f), m)
  }

  /** What a lookup of `aliases` among the headers `cols` may answer. */
  predicate LookupMatches(cols: seq<string>, aliases: seq<string>, r: Option<string>)
  {
    && (r.None? <==> forall c :: c in cols ==> NormalizeColname(c) !in aliases)
    && (r.Some? ==>
          var k := NormalizeColname(r.value);
          k in aliases && LastWithForm(cols, k) >= 0 && cols[LastWithForm(cols, k)] == r.value)
  }

  lemma FirstAliasMatches(cols: seq<string>, aliases: seq<string>)
    ensures LookupMatches(cols, aliases, FirstAlias(aliases, NormalizedHeaders(cols)))
  {
    var m := NormalizedHeaders(cols);
    var r := FirstAlias(aliases, m);
    forall c | c in cols ensures NormalizeColname(c) in m {
      var i :| 0 <= i < |cols| && cols[i] == c;
      assert LastWithForm(cols, NormalizeColname(c)) >= i;
    }
    if r.Some? {
      var a :| a in aliases && a in m && m[a] == r.value;
      assert NormalizeColname(cols[LastWithForm(cols, a)]) == a;
    }
  }

  /** No spelling belongs to two fields, so a header resolves at most one field. */
  lemma AliasesDisjoint(f: Field, g: Field, a: string)
    requires f != g && a in Aliases(f)
    ensures a !in Aliases(g)
  {
    ApartTitleAbstract(a);
    ApartTitleJournal(a);
    ApartTitleYear(a);
    ApartAbstractJournal(a);
    ApartAbstractYear(a);
    ApartJournalYear(a);
  }

  lemma ApartTitleAbstract(a: string)
    ensures !(a in Aliases(Title) && a in Aliases(Abstract))
  {
  }

  lemma ApartTitleJournal(a: string)
    ensures !(a in Aliases(Title) && a in Aliases(Journal))
  {
  }

  lemma ApartTitleYear(a: string)
    ensures !(a in Aliases(Title) && a in Aliases(Year))
  {
  }

  lemma ApartAbstractJournal(a: string)
    ensures !(a in Aliases(Abstract) && a in Aliases(Journal))
  {
  }

  lemma ApartAbstractYear(a: string)
    ensures !(a in Aliases(Abstract) && a in Aliases(Year))
  {
  }

  lemma ApartJournalYear(a: string)
    ensures !(a in Aliases(Journal) && a in Aliases(Year))
  {
  }
}
