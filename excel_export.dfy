/**
 * The data side of the priorities export (frontend/src/hooks/useExcelExport.js):
 * `createAbbreviation`, the per-row pass that abbreviates the `hum1..hum5` and
 * `tech1..tech5` columns while collecting the full names, and the sorted
 * legend of full names with their abbreviations.
 */
module ExcelExport {
  import opened Wrappers
  import opened Text

  // ----- createAbbreviation -----

  /** The separators of `split(/[\s-:]+/)`: JavaScript whitespace, '-' and ':'. */
  predicate IsSeparator(c: char) {
    IsJsWhitespace(c) || c == '-' || c == ':'
  }

  /** `[a-zA-Zа-яА-Я]`: Latin letters and the Cyrillic block U+0410..U+044F. */
  predicate IsNameLetter(c: char) {
    ('a' <= c <= 'z') || ('A' <= c <= 'Z') || ('\U{410}' <= c <= '\U{44F}')
  }

  /** `toUpperCase` on a name letter. */
  function UpperLetter(c: char): (u: char)
    requires IsNameLetter(c)
    ensures IsNameLetter(u) && !('a' <= u <= 'z') && !('\U{430}' <= u <= '\U{44F}')
  {
    if ('a' <= c <= 'z') || ('\U{430}' <= c <= '\U{44F}') then (c as int - 32) as char else c
  }

  /** The longest prefix of `s` without a separator. */
  function Word(s: string): (w: string)
    ensures StartsWith(s, w)
    ensures forall i :: 0 <= i < |w| ==> !IsSeparator(w[i])
    ensures |w| == |s| || IsSeparator(s[|w|])
  {
    if s != [] && !IsSeparator(s[0]) then [s[0]] + Word(s[1..]) else []
  }

  /** `s` with its leading separators removed. */
  function DropSeparators(s: string): (r: string)
    ensures |r| <= |s| && r == s[|s| - |r|..]
    ensures forall i :: 0 <= i < |s| - |r| ==> IsSeparator(s[i])
    ensures r == [] || !IsSeparator(r[0])
  {
    TrimStart(s, IsSeparator)
  }

  /** `s.split(/[\s-:]+/)`: the pieces between maximal separator runs, empty pieces at the ends included. */
  function Split(s: string): (words: seq<string>)
    ensures |words| > 0
    decreases |s|
  {
    var w := Word(s);
    var rest := s[|w|..];
    if rest == [] then [w] else [w] + Split(DropSeparators(rest[1..]))
  }

  /** `word.match(/^[a-zA-Zа-яА-Я]/)?.[0]?.toUpperCase() || ''`. */
  function Initial(word: string): (r: string)
    ensures |r| <= 1
  {
    if word != [] && IsNameLetter(word[0]) then [UpperLetter(word[0])] else ""
  }

  /** `.map(Initial)`. */
  function Initials(words: seq<string>): (r: seq<string>)
    ensures |r| == |words|
  {
    if words == [] then [] else [Initial(words[0])] + Initials(words[1..])
  }

  /** `.filter(Boolean)` on strings: the non-empty ones, in order. */
  function NonEmpty(parts: seq<string>): (r: seq<string>)
    ensures |r| <= |parts|
    ensures forall i :: 0 <= i < |r| ==> r[i] != ""
  {
    if parts == [] then [] else (if parts[0] != "" then [parts[0]] else []) + NonEmpty(parts[1..])
  }

  /** `.join('')`. */
  function Join(parts: seq<string>): string {
    if parts == [] then "" else parts[0] + Join(parts[1..])
  }

  /** `createAbbreviation` on a string. */
  function Abbreviation(name: string): string {
    Join(NonEmpty(Initials(Split(name))))
  }

  /**
   * Reference reading of the abbreviation: scanning left to right, a name
   * letter contributes its upper case exactly when it starts the string or
   * follows a separator. `atStart` says whether the previous character was a
   * separator (or there was none).
   */
  function Scan(s: string, atStart: bool): (r: string)
    ensures |r| <= |s|
    ensures forall i :: 0 <= i < |r| ==> IsNameLetter(r[i]) && !('a' <= r[i] <= 'z')
  {
    if s == [] then []
    else
      var r := Scan(s[1..], IsSeparator(s[0]));
      (if atStart && IsNameLetter(s[0]) then [UpperLetter(s[0])] else []) + r
  }

  lemma {:induction false} JoinNonEmptyInitialsCons(w: string, words: seq<string>)
    ensures Join(NonEmpty(Initials([w] + words))) == Initial(w) + Join(NonEmpty(Initials(words)))
  {
    assert ([w] + words)[1..] == words;
    assert Initials([w] + words) == [Initial(w)] + Initials(words);
    var rest := Initials(words);
    assert ([Initial(w)] + rest)[1..] == rest;
    if Initial(w) != "" {
      assert NonEmpty([Initial(w)] + rest) == [Initial(w)] + NonEmpty(rest);
      assert ([Initial(w)] + NonEmpty(rest))[1..] == NonEmpty(rest);
    } else {
      assert NonEmpty([Initial(w)] + rest) == NonEmpty(rest);
    }
  }

  /** Characters other than separators after the first one of a word contribute nothing. */
  lemma {:induction false} ScanSkipsWordTail(v: string, t: string)
    requires forall i :: 0 <= i < |v| ==> !IsSeparator(v[i])
    ensures Scan(v + t, false) == Scan(t, false)
  {
    if v != [] {
      assert (v + t)[1..] == v[1..] + t;
      ScanSkipsWordTail(v[1..], t);
    } else {
      assert v + t == t;
    }
  }

  /** A run of separators resets the scan to "at start". */
  lemma {:induction false} ScanAfterSeparators(run: string, u: string, atStart: bool)
    requires |run| > 0 && forall i :: 0 <= i < |run| ==> IsSeparator(run[i])
    ensures Scan(run + u, atStart) == Scan(u, true)
  {
    assert (run + u)[1..] == run[1..] + u;
    if |run| > 1 {
      ScanAfterSeparators(run[1..], u, true);
    } else {
      assert run[1..] + u == u;
    }
  }

  /** A whole word followed by anything: its initial, then the scan of what follows. */
  lemma ScanWord(w: string, t: string)
    requires w != [] && forall i :: 0 <= i < |w| ==> !IsSeparator(w[i])
    ensures Scan(w + t, true) == Initial(w) + Scan(t, false)
  {
    assert (w + t)[1..] == w[1..] + t;
    ScanSkipsWordTail(w[1..], t);
  }

  /** One step of the pipeline: the first word's initial, then the abbreviation of what follows the separators. */
  lemma AbbreviationCons(s: string)
    ensures var w := Word(s); var rest := s[|w|..];
      Abbreviation(s) == Initial(w) + (if rest == [] then "" else Abbreviation(DropSeparators(rest[1..])))
  {
    var w := Word(s);
    var rest := s[|w|..];
    if rest == [] {
      assert Split(s) == [w];
      JoinNonEmptyInitialsCons(w, []);
      assert Join(NonEmpty(Initials([]))) == "";
    } else {
      var u := DropSeparators(rest[1..]);
      assert Split(s) == [w] + Split(u);
      JoinNonEmptyInitialsCons(w, Split(u));
    }
  }

  /** A word, then a separator and more: the word's initial, then the scan after the separators. */
  lemma ScanWordThenSeparators(w: string, rest: string)
    requires forall i :: 0 <= i < |w| ==> !IsSeparator(w[i])
    requires rest != [] && IsSeparator(rest[0])
    ensures Scan(w + rest, true) == Initial(w) + Scan(DropSeparators(rest[1..]), true)
  {
    var u := DropSeparators(rest[1..]);
    var run := rest[..|rest| - |u|];
    assert rest == run + u;
    forall i | 0 <= i < |run| ensures IsSeparator(run[i]) {
      if i > 0 {
        assert run[i] == rest[1..][i - 1];
      }
    }
    if w != [] {
      ScanWord(w, rest);
      ScanAfterSeparators(run, u, false);
    } else {
      assert w + rest == rest;
      ScanAfterSeparators(run, u, true);
    }
  }

  /** The same step for the scan. */
  lemma ScanCons(s: string)
    ensures var w := Word(s); var rest := s[|w|..];
      Scan(s, true) == Initial(w) + (if rest == [] then "" else Scan(DropSeparators(rest[1..]), true))
  {
    var w := Word(s);
    var rest := s[|w|..];
    assert s == w + rest;
    if rest == [] {
      if w != [] {
        ScanWord(w, []);
        assert w + [] == w;
      }
    } else {
      ScanWordThenSeparators(w, rest);
    }
  }

  /** The split/map/filter/join pipeline agrees with the left-to-right scan. */
  lemma {:induction false} AbbreviationIsScan(s: string)
    ensures Abbreviation(s) == Scan(s, true)
    decreases |s|
  {
    AbbreviationCons(s);
    ScanCons(s);
    var w := Word(s);
    var rest := s[|w|..];
    if rest != [] {
      AbbreviationIsScan(DropSeparators(rest[1..]));
    }
  }

  /** Every character of an abbreviation is an upper-case name letter. */
  lemma AbbreviationIsUpperCase(s: string)
    ensures forall i :: 0 <= i < |Abbreviation(s)| ==> IsNameLetter(Abbreviation(s)[i]) && !('a' <= Abbreviation(s)[i] <= 'z')
  {
    AbbreviationIsScan(s);
  }

  /** At most one letter per word. */
  lemma {:induction false} AbbreviationAtMostWordCount(s: string)
    ensures |Abbreviation(s)| <= |Split(s)|
    decreases |s|
  {
    AbbreviationCons(s);
    var w := Word(s);
    var rest := s[|w|..];
    if rest != [] {
      AbbreviationAtMostWordCount(DropSeparators(rest[1..]));
    }
  }

  /** A word followed by one space: its initial, then the scan of the remainder from a fresh start. */
  lemma ScanWordSpace(w: string, t: string)
    requires w != [] && forall i :: 0 <= i < |w| ==> !IsSeparator(w[i])
    ensures Scan(w + " " + t, true) == Initial(w) + Scan(t, true)
  {
    assert w + " " + t == w + (" " + t);
    ScanWord(w, " " + t);
    ScanAfterSeparators(" ", t, false);
  }

  /** The unit test's example: '&' is a word of its own and contributes nothing. */
  lemma BrandingExample(w1: string, w2: string, w3: string, w4: string, w5: string, w6: string)
    requires w1 == "Branding" && w2 == "&" && w3 == "Marketing" && w4 == "in" && w5 == "IT" && w6 == "Industry"
    ensures Abbreviation(w1 + " " + w2 + " " + w3 + " " + w4 + " " + w5 + " " + w6) == "BMIII"
  {
    var t4 := w4 + " " + (w5 + " " + w6);
    var s := w1 + " " + (w2 + " " + (w3 + " " + t4));
    assert w1 + " " + w2 + " " + w3 + " " + w4 + " " + w5 + " " + w6 == s;
    BrandingTailScan(w4, w5, w6);
    BrandingHeadScan(w1, w2, w3, t4);
    AbbreviationIsScan(s);
  }

  /** "in IT Industry" scans to "III". */
  lemma BrandingTailScan(w4: string, w5: string, w6: string)
    requires w4 == "in" && w5 == "IT" && w6 == "Industry"
    ensures Scan(w4 + " " + (w5 + " " + w6), true) == "III"
  {
    ScanWord(w6, "");
    assert w6 + "" == w6;
    ScanWordSpace(w5, w6);
    ScanWordSpace(w4, w5 + " " + w6);
  }

  /** "Branding & Marketing " in front of a tail adds "BM". */
  lemma BrandingHeadScan(w1: string, w2: string, w3: string, t: string)
    requires w1 == "Branding" && w2 == "&" && w3 == "Marketing" && Scan(t, true) == "III"
    ensures Scan(w1 + " " + (w2 + " " + (w3 + " " + t)), true) == "BMIII"
  {
    ScanWordSpace(w3, t);
    ScanWordSpace(w2, w3 + " " + t);
    ScanWordSpace(w1, w2 + " " + (w3 + " " + t));
  }

  /** A priorities cell: text or SQL null. */
  datatype Cell = Text(s: string) | Null

  /** JavaScript truthiness of a cell: non-empty text. */
  predicate Truthy(c: Cell) {
    c.Text? && c.s != ""
  }

  /** `createAbbreviation` on a cell: a falsy or non-string input is returned unchanged. */
  function AbbreviateCell(c: Cell): (r: Cell)
    ensures !Truthy(c) ==> r == c
    ensures Truthy(c) ==> r.Text?
  {
    if Truthy(c) then Text(Abbreviation(c.s)) else c
  }

  // ----- the per-row pass -----

  type Row = map<string, Cell>

  const SlotCount := 5

  /** `hum${i}` or `tech${i}`. */
  function SlotKey(prefix: string, i: nat): string {
    prefix + NatToString(i)
  }

  /** The columns of rounds `1 .. n - 1`. */
  function SlotKeys(n: nat): set<string> {
    if n <= 1 then {} else SlotKeys(n - 1) + {SlotKey("hum", n - 1), SlotKey("tech", n - 1)}
  }

  /** `if (newRow[key]) newRow[key] = createAbbreviation(newRow[key])`. */
  function UpdateSlot(r: Row, k: string): (r': Row)
    ensures r'.Keys == r.Keys
  {
    if k in r && Truthy(r[k]) then r[k := AbbreviateCell(r[k])] else r
  }

  /** `if (newRow[key]) allCourses.add(newRow[key])`, as the set of names added. */
  function CollectSlot(r: Row, k: string): set<string> {
    if k in r && Truthy(r[k]) then {r[k].s} else {}
  }

  /** The row after rounds `1 .. n - 1` of the loop. */
  function RowAfter(row: Row, n: nat): (r: Row)
    ensures r.Keys == row.Keys
  {
    if n <= 1 then row
    else
      var r := RowAfter(row, n - 1);
      UpdateSlot(UpdateSlot(r, SlotKey("hum", n - 1)), SlotKey("tech", n - 1))
  }

  /** The names collected by rounds `1 .. n - 1` of the loop. */
  function CoursesAfter(row: Row, n: nat): set<string> {
    if n <= 1 then {}
    else
      var r := RowAfter(row, n - 1);
      CoursesAfter(row, n - 1) + CollectSlot(r, SlotKey("hum", n - 1))
        + CollectSlot(UpdateSlot(r, SlotKey("hum", n - 1)), SlotKey("tech", n - 1))
  }

  /**
   * The body of `data.map(row => ...)`: for i = 1..5 the `hum{i}` and
   * `tech{i}` columns, when truthy, are added to `allCourses` and replaced by
   * their abbreviation.
   */
  method ProcessRow(row: Row, allCourses: set<string>) returns (newRow: Row, courses: set<string>)
    ensures newRow == RowAfter(row, SlotCount + 1)
    ensures courses == allCourses + CoursesAfter(row, SlotCount + 1)
  {
    newRow := row;
    courses := allCourses;
    for i := 1 to SlotCount + 1
      invariant newRow == RowAfter(row, i)
      invariant courses == allCourses + CoursesAfter(row, i)
    {
      var humKey := SlotKey("hum", i);
      var techKey := SlotKey("tech", i);
      if humKey in newRow && Truthy(newRow[humKey]) {
        courses := courses + {newRow[humKey].s};
        newRow := newRow[humKey := AbbreviateCell(newRow[humKey])];
      }
      if techKey in newRow && Truthy(newRow[techKey]) {
        courses := courses + {newRow[techKey].s};
        newRow := newRow[techKey := AbbreviateCell(newRow[techKey])];
      }
    }
  }

  /** Different numbers or different prefixes give different slot keys. */
  lemma SlotKeysDistinct(p: string, i: nat, q: string, j: nat)
    requires p == "hum" || p == "tech"
    requires q == "hum" || q == "tech"
    requires SlotKey(p, i) == SlotKey(q, j)
    ensures p == q && i == j
  {
    var a := SlotKey(p, i);
    assert a[0] == p[0] && a[0] == q[0];
    assert a[|p|..] == NatToString(i) && a[|q|..] == NatToString(j);
    NatToStringInjective(i, j);
  }

  /** Every column of the earlier rounds carries a smaller number. */
  lemma {:induction false} SlotKeysBelow(k: string, n: nat)
    requires k in SlotKeys(n)
    ensures exists j :: 1 <= j < n && (k == SlotKey("hum", j) || k == SlotKey("tech", j))
  {
    if k !in SlotKeys(n - 1) {
      assert k == SlotKey("hum", n - 1) || k == SlotKey("tech", n - 1);
    } else {
      SlotKeysBelow(k, n - 1);
    }
  }

  /** The columns of round `n` are new: no earlier round touched them. */
  lemma SlotKeyIsNew(p: string, n: nat)
    requires p == "hum" || p == "tech"
    ensures SlotKey(p, n) !in SlotKeys(n)
  {
    if SlotKey(p, n) in SlotKeys(n) {
      SlotKeysBelow(SlotKey(p, n), n);
      var j :| 1 <= j < n && (SlotKey(p, n) == SlotKey("hum", j) || SlotKey(p, n) == SlotKey("tech", j));
      if SlotKey(p, n) == SlotKey("hum", j) {
        SlotKeysDistinct(p, n, "hum", j);
      } else {
        SlotKeysDistinct(p, n, "tech", j);
      }
    }
  }

  lemma HumTechDiffer(m: nat)
    ensures SlotKey("hum", m) != SlotKey("tech", m)
  {
    var a := SlotKey("hum", m);
    assert a[0] == 'h';
  }

  /** Per column: a truthy `hum{i}`/`tech{i}` holds its abbreviation and every other column is unchanged. */
  ghost predicate RowProcessedBelow(row: Row, r: Row, n: nat) {
    && r.Keys == row.Keys
    && forall k :: k in row ==> r[k] == (if k in SlotKeys(n) && Truthy(row[k]) then AbbreviateCell(row[k]) else row[k])
  }

  /** The names collected are exactly the truthy `hum{i}`/`tech{i}` values. */
  ghost predicate CoursesCollectedBelow(row: Row, c: set<string>, n: nat) {
    forall name :: name in c <==> exists k :: k in row && k in SlotKeys(n) && row[k] == Text(name) && name != ""
  }

  /** `name` is the non-empty value of one of the row's columns of rounds `1 .. n - 1`. */
  ghost predicate HoldsName(row: Row, name: string, n: nat) {
    exists k :: k in row && k in SlotKeys(n) && row[k] == Text(name) && name != ""
  }

  /** What the loop does to the row, column by column. */
  lemma {:induction false} RowAfterMeaning(row: Row, n: nat)
    ensures RowProcessedBelow(row, RowAfter(row, n), n)
  {
    if n > 1 {
      var m := n - 1;
      RowAfterMeaning(row, m);
      var hum, tech := SlotKey("hum", m), SlotKey("tech", m);
      SlotKeyIsNew("hum", m);
      SlotKeyIsNew("tech", m);
      HumTechDiffer(m);
      var r0 := RowAfter(row, m);
      var r1 := UpdateSlot(r0, hum);
      var r2 := UpdateSlot(r1, tech);
      assert RowAfter(row, n) == r2;
      assert SlotKeys(n) == SlotKeys(m) + {hum, tech};
      forall k | k in row
        ensures r2[k] == (if k in SlotKeys(n) && Truthy(row[k]) then AbbreviateCell(row[k]) else row[k])
      {
        if k == hum {
          assert r0[k] == row[k];
        } else if k == tech {
          assert r1[k] == r0[k] == row[k];
        } else {
          assert r2[k] == r0[k];
        }
      }
    }
  }

  /** A column outside the earlier rounds still holds the row's own value. */
  lemma RowAfterUntouched(row: Row, n: nat, k: string)
    requires k !in SlotKeys(n)
    ensures k in RowAfter(row, n) <==> k in row
    ensures k in row ==> RowAfter(row, n)[k] == row[k]
  {
    RowAfterMeaning(row, n);
  }

  /** A column no earlier step touched contributes its own non-empty text. */
  lemma CollectUntouched(row: Row, r: Row, k: string, name: string)
    requires k in r <==> k in row
    requires k in r ==> r[k] == row[k]
    ensures name in CollectSlot(r, k) <==> k in row && row[k] == Text(name) && name != ""
  {
  }

  /** The names the loop collects from the row. */
  lemma {:induction false} CoursesAfterMeaning(row: Row, n: nat)
    ensures CoursesCollectedBelow(row, CoursesAfter(row, n), n)
  {
    if n > 1 {
      var m := n - 1;
      CoursesAfterMeaning(row, m);
      var hum, tech := SlotKey("hum", m), SlotKey("tech", m);
      SlotKeyIsNew("hum", m);
      SlotKeyIsNew("tech", m);
      HumTechDiffer(m);
      var r0 := RowAfter(row, m);
      var r1 := UpdateSlot(r0, hum);
      RowAfterUntouched(row, m, hum);
      RowAfterUntouched(row, m, tech);
      assert tech in r1 ==> r1[tech] == r0[tech];
      assert CoursesAfter(row, n) == CoursesAfter(row, m) + CollectSlot(r0, hum) + CollectSlot(r1, tech);
      assert SlotKeys(n) == SlotKeys(m) + {hum, tech};
      forall name
        ensures name in CoursesAfter(row, n) <==> exists k :: k in row && k in SlotKeys(n) && row[k] == Text(name) && name != ""
      {
        CollectUntouched(row, r0, hum, name);
        CollectUntouched(row, r1, tech, name);
        if exists k :: k in row && k in SlotKeys(n) && row[k] == Text(name) && name != "" {
          var k :| k in row && k in SlotKeys(n) && row[k] == Text(name) && name != "";
          assert k in SlotKeys(m) || k == hum || k == tech;
        }
      }
    }
  }

  /** The names collected from all rows, row after row. */
  function AllCourses(data: seq<Row>): set<string> {
    if data == [] then {} else AllCourses(data[..|data| - 1]) + CoursesAfter(data[|data| - 1], SlotCount + 1)
  }

  /** The names one row contributes are the ones it holds. */
  lemma RowNames(row: Row, name: string)
    ensures name in CoursesAfter(row, SlotCount + 1) <==> HoldsName(row, name, SlotCount + 1)
  {
    CoursesAfterMeaning(row, SlotCount + 1);
  }

  /** A name is collected exactly when some row holds it, non-empty, in one of its ten slot columns. */
  lemma {:induction false} AllCoursesMeaning(data: seq<Row>, name: string)
    ensures name in AllCourses(data) <==> exists j :: 0 <= j < |data| && HoldsName(data[j], name, SlotCount + 1)
  {
    if data != [] {
      var init := data[..|data| - 1];
      var last := data[|data| - 1];
      AllCoursesMeaning(init, name);
      RowNames(last, name);
      assert AllCourses(data) == AllCourses(init) + CoursesAfter(last, SlotCount + 1);
      if name in AllCourses(init) {
        var j :| 0 <= j < |init| && HoldsName(init[j], name, SlotCount + 1);
        assert data[j] == init[j];
      }
      if exists j :: 0 <= j < |data| && HoldsName(data[j], name, SlotCount + 1) {
        var j :| 0 <= j < |data| && HoldsName(data[j], name, SlotCount + 1);
        if j < |init| {
          assert init[j] == data[j];
        }
      }
    }
  }

  /** One more row adds that row's names. */
  lemma AllCoursesSnoc(data: seq<Row>, j: nat, acc: set<string>)
    requires j < |data| && acc == AllCourses(data[..j])
    ensures acc + CoursesAfter(data[j], SlotCount + 1) == AllCourses(data[..j + 1])
  {
    assert data[..j + 1][..j] == data[..j];
  }

  /** `processedData` and `allCourses`: each row processed, and the union of the names of all rows. */
  /** The first `j` rows of `data`, each processed. */
  predicate ProcessedPrefix(data: seq<Row>, processed: seq<Row>, j: nat) {
    j <= |data| && |processed| == j && forall l :: 0 <= l < j ==> processed[l] == RowAfter(data[l], SlotCount + 1)
  }

  /** One more processed row extends the processed prefix. */
  lemma ProcessedSnoc(data: seq<Row>, j: nat, processed: seq<Row>, newRow: Row)
    requires j < |data| && ProcessedPrefix(data, processed, j) && newRow == RowAfter(data[j], SlotCount + 1)
    ensures ProcessedPrefix(data, processed + [newRow], j + 1)
  {
  }

  method ProcessData(data: seq<Row>) returns (processed: seq<Row>, allCourses: set<string>)
    ensures |processed| == |data|
    ensures forall j :: 0 <= j < |data| ==> processed[j] == RowAfter(data[j], SlotCount + 1)
    ensures allCourses == AllCourses(data)
  {
    processed := [];
    allCourses := {};
    for j := 0 to |data|
      invariant ProcessedPrefix(data, processed, j)
      invariant allCourses == AllCourses(data[..j])
    {
      AllCoursesSnoc(data, j, allCourses);
      var newRow, courses := ProcessRow(data[j], allCourses);
      ProcessedSnoc(data, j, processed, newRow);
      processed := processed + [newRow];
      allCourses := courses;
    }
    assert data[..|data|] == data;
  }

  // ----- the legend -----

  /**
   * The order of `Array.prototype.sort()` without a comparator, on strings:
   * lexicographic by character, a proper prefix first.
   */
  predicate Less(a: string, b: string)
    decreases |a|
  {
    if a == [] then b != []
    else b != [] && (a[0] < b[0] || (a[0] == b[0] && Less(a[1..], b[1..])))
  }

  lemma {:induction false} LessIrreflexive(a: string)
    ensures !Less(a, a)
    decreases |a|
  {
    if a != [] {
      LessIrreflexive(a[1..]);
    }
  }

  lemma {:induction false} LessTransitive(a: string, b: string, c: string)
    requires Less(a, b) && Less(b, c)
    ensures Less(a, c)
    decreases |a|
  {
    if a != [] && a[0] == b[0] && b[0] == c[0] {
      LessTransitive(a[1..], b[1..], c[1..]);
    }
  }

  lemma {:induction false} LessTotal(a: string, b: string)
    requires a != b
    ensures Less(a, b) || Less(b, a)
    decreases |a|
  {
    if a != [] && b != [] && a[0] == b[0] {
      LessTotal(a[1..], b[1..]);
    }
  }

  predicate StrictlySorted(s: seq<string>) {
    forall i, j :: 0 <= i < j < |s| ==> Less(s[i], s[j])
  }

  /** `x` placed in a strictly sorted list before the first larger entry. */
  function Insert(s: seq<string>, x: string): (r: seq<string>)
    requires StrictlySorted(s) && x !in s
    ensures |r| == |s| + 1
    ensures forall y :: y in r <==> y in s || y == x
    ensures StrictlySorted(r)
  {
    if s == [] then [x]
    else if Less(x, s[0]) then
      forall j | 0 <= j < |s| ensures Less(x, s[j]) {
        if j > 0 { LessTransitive(x, s[0], s[j]); }
      }
      [x] + s
    else
      LessTotal(x, s[0]);
      var t := Insert(s[1..], x);
      forall j | 0 <= j < |t| ensures Less(s[0], t[j]) {
        if t[j] != x {
          assert t[j] in t;
          var k :| 0 <= k < |s[1..]| && s[1..][k] == t[j];
          assert s[k + 1] == t[j];
        }
      }
      [s[0]] + t
  }

  /** One row of the "Legend" sheet. */
  datatype LegendRow = LegendRow(full: string, abbr: string)

  /** `Array.from(allCourses).sort()`: every collected name once, in order. */
  method SortNames(courses: set<string>) returns (sorted: seq<string>)
    ensures |sorted| == |courses|
    ensures forall y :: y in sorted <==> y in courses
    ensures StrictlySorted(sorted)
  {
    sorted := [];
    var remaining := courses;
    while remaining != {}
      invariant StrictlySorted(sorted)
      invariant forall y :: y in sorted <==> y in courses && y !in remaining
      invariant remaining <= courses
      invariant |sorted| + |remaining| == |courses|
      decreases |remaining|
    {
      var x :| x in remaining;
      sorted := Insert(sorted, x);
      remaining := remaining - {x};
    }
  }

  /** The full names listed in a legend. */
  function Names(legend: seq<LegendRow>): set<string> {
    set i | 0 <= i < |legend| :: legend[i].full
  }

  /** The legend rows of a list of names, one per name and in its order. */
  predicate ListsNames(legend: seq<LegendRow>, sorted: seq<string>) {
    |legend| == |sorted| && forall l :: 0 <= l < |sorted| ==> legend[l] == LegendRow(sorted[l], Abbreviation(sorted[l]))
  }

  /** Rows built from the sorted names list every collected name once, in order, beside its abbreviation. */
  lemma LegendOfSorted(courses: set<string>, sorted: seq<string>, legend: seq<LegendRow>)
    requires |sorted| == |courses| && (forall y :: y in sorted <==> y in courses) && StrictlySorted(sorted)
    requires ListsNames(legend, sorted)
    ensures |legend| == |courses| && Names(legend) == courses
    ensures forall i :: 0 <= i < |legend| ==> legend[i].full in courses && legend[i].abbr == Abbreviation(legend[i].full)
    ensures forall c :: c in courses ==> exists i :: 0 <= i < |legend| && legend[i].full == c
    ensures forall i, j :: 0 <= i < j < |legend| ==> Less(legend[i].full, legend[j].full)
  {
    forall c | c in courses ensures exists i :: 0 <= i < |legend| && legend[i].full == c {
      var i :| 0 <= i < |sorted| && sorted[i] == c;
      assert legend[i].full == c;
    }
    forall i | 0 <= i < |legend| ensures legend[i].full in courses {
      assert legend[i].full == sorted[i];
    }
  }

  /** The "Legend" sheet: each distinct full name once, sorted, beside its abbreviation. */
  method BuildLegend(courses: set<string>) returns (legend: seq<LegendRow>)
    ensures |legend| == |courses| && Names(legend) == courses
    ensures forall i :: 0 <= i < |legend| ==> legend[i].full in courses && legend[i].abbr == Abbreviation(legend[i].full)
    ensures forall c :: c in courses ==> exists i :: 0 <= i < |legend| && legend[i].full == c
    ensures forall i, j :: 0 <= i < j < |legend| ==> Less(legend[i].full, legend[j].full)
  {
    var sorted := SortNames(courses);
    legend := [];
    for i := 0 to |sorted|
      invariant ListsNames(legend, sorted[..i])
    {
      legend := legend + [LegendRow(sorted[i], Abbreviation(sorted[i]))];
    }
    assert sorted[..|sorted|] == sorted;
    LegendOfSorted(courses, sorted, legend);
  }

  /** What `exportToExcel` produces from the query's outcome. */
  datatype Export =
    | QueryFailed            // the query returned an error: "Error occurred: ..."
    | NoData                 // "No data to export", no workbook
    | Workbook(priorities: seq<Row>, legend: seq<LegendRow>)

  /**
   * `exportToExcel` given the outcome of `select("*")` on `priorities`
   * (`None` for an error): an empty result gives no workbook; otherwise
   * the processed rows and the legend of every collected name.
   */
  method ExportToExcel(query: Option<seq<Row>>) returns (result: Export)
    ensures query.None? ==> result == QueryFailed
    ensures query == Some([]) ==> result == NoData
    ensures query.Some? && query.value != [] ==>
      && result.Workbook?
      && |result.priorities| == |query.value|
      && (forall j :: 0 <= j < |query.value| ==> result.priorities[j] == RowAfter(query.value[j], SlotCount + 1))
      && Names(result.legend) == AllCourses(query.value)
      && (forall i :: 0 <= i < |result.legend| ==> result.legend[i].abbr == Abbreviation(result.legend[i].full))
      && (forall i, k :: 0 <= i < k < |result.legend| ==> Less(result.legend[i].full, result.legend[k].full))
  {
    if query.None? {
      return QueryFailed;
    }
    var data := query.value;
    if |data| == 0 {
      return NoData;
    }
    var processed, allCourses := ProcessData(data);
    var legend := BuildLegend(allCourses);
    result := Workbook(processed, legend);
  }
}
