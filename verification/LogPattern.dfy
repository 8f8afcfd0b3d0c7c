/** The parser of log patterns: literal text, letter directives with an optional braced format, and
    the doubled percent sign. */
module LogPattern {

  /** What the scan collects: text, or a letter with its format. */
  datatype Item = Text(text: string) | Directive(letter: char, format: string)

  /** What a formatter is made of. */
  datatype FormatItem = StringItem(text: string) | FieldItem(letter: char, format: string)

  datatype Scan = Scan(items: seq<Item>, error: bool)

  const PATTERN_ERROR: string := "<<pattern_error>>"

  predicate IsAlpha(c: char) { 'a' <= c <= 'z' || 'A' <= c <= 'Z' }

  function Flush(text: string): seq<Item> { if text == "" then [] else [Text(text)] }

  function Before(items: seq<Item>, s: Scan): Scan { Scan(items + s.items, s.error) }

  /** The first closing brace, or the length. */
  function Closing(s: string): (n: nat)
    ensures n <= |s| && '}' !in s[..n] && (n < |s| ==> s[n] == '}')
  {
    if s == "" || s[0] == '}' then 0
    else
      assert forall n :: 0 <= n < |s| ==> s[..n + 1] == [s[0]] + s[1..][..n];
      1 + Closing(s[1..])
  }

  /** How many characters one round of the scan consumes, and what it collects; `text` is the text
      before them. */
  datatype Round = Round(taken: nat, items: seq<Item>, text: string, error: bool)

  function NextRound(s: string, text: string): (r: Round)
    requires s != ""
    ensures 1 <= r.taken <= |s|
  {
    if s[0] != '%' then Round(1, [], text + [s[0]], false)
    else if |s| == 1 then Round(1, Flush(text), "", false)
    else if s[1] == '%' then Round(2, [Text(text + "%")], "", false)
    else if !IsAlpha(s[1]) then Round(2, Flush(text), "", false)
    else if |s| == 2 || s[2] != '{' then Round(2, Flush(text) + [Directive(s[1], "")], "", false)
    else
      var n := Closing(s[3..]);
      if n < |s| - 3 then Round(n + 4, Flush(text) + [Directive(s[1], s[3..3 + n])], "", false)
      else Round(2, [Directive(s[1], PATTERN_ERROR)] + Flush(text), "", true)
  }

  /** The whole scan; text after the last directive is dropped. */
  function Scanned(s: string, text: string): Scan
    decreases |s|
  {
    if s == "" then Scan([], false)
    else
      var r := NextRound(s, text);
      After(r, Scanned(s[r.taken..], r.text))
  }

  function After(r: Round, rest: Scan): Scan { Scan(r.items + rest.items, r.error || rest.error) }

  lemma ScanOnce(s: string, text: string)
    requires s != ""
    ensures var r := NextRound(s, text); Scanned(s, text) == After(r, Scanned(s[r.taken..], r.text))
  {
  }

  /** The search for the closing brace; it looks at the terminating zero too. */
  method FindBrace(pattern: string, begin: nat) returns (found: bool, m: nat)
    requires begin <= |pattern|
    ensures m == begin + Closing(pattern[begin..]) && found == (m < |pattern|)
  {
    m := begin;
    while m < |pattern|
      invariant begin <= m <= |pattern|
      invariant begin + Closing(pattern[begin..]) == m + Closing(pattern[m..])
    {
      if pattern[m] == '}' {
        return true, m;
      }
      assert pattern[m..][1..] == pattern[m + 1..];
      m := m + 1;
    }
    found := false;
  }

  class LogFormatter {
    const pattern: string
    var items: seq<FormatItem>
    var error: bool

    constructor (pattern: string)
      ensures this.pattern == pattern && items == [] && !error
    {
      this.pattern, items, error := pattern, [], false;
    }

    /** One round of the scanning loop, from index `i` to the next one. */
    method Step(i: nat, vec: seq<Item>, nstr: string) returns (j: nat, vec': seq<Item>, nstr': string)
      requires i < |pattern|
      modifies this`error
      ensures var r := NextRound(pattern[i..], nstr);
              && (j == i + r.taken || j > |pattern| == i + r.taken)
              && vec' == vec + r.items && nstr' == r.text && error == (old(error) || r.error)
    {
      j, vec', nstr' := i, vec, nstr;
      if pattern[i] != '%' {
        return j + 1, vec', nstr' + [pattern[i]];
      }
      if i + 1 < |pattern| && pattern[i + 1] == '%' {
        return j + 2, vec' + [Text(nstr' + "%")], "";
      }
      var str, fmt := "", "";
      var n := i + 1;
      if n < |pattern| && IsAlpha(pattern[n]) {
        str := [pattern[n]];
        if n + 1 < |pattern| && pattern[n + 1] == '{' {
          var found, m := FindBrace(pattern, n + 2);
          assert pattern[i..][3..] == pattern[n + 2..];
          if found {
            fmt := pattern[n + 2..m];
            assert fmt == pattern[i..][3..3 + (m - (n + 2))];
            j := m - 1;
          } else {
            error := true;
            vec' := vec' + [Directive(str[0], PATTERN_ERROR)];
            if nstr' != "" {
              vec', nstr' := vec' + [Text(nstr')], "";
            }
            return j + 2, vec', nstr';
          }
        }
      }
      j := j + 1;
      if nstr' != "" {
        vec', nstr' := vec' + [Text(nstr')], "";
      }
      if str != "" {
        vec' := vec' + [Directive(str[0], fmt)];
      }
      j := j + 1;
    }

    /** What is still to be collected from index `i` on. */
    ghost function Pending(i: nat, text: string): Scan {
      if i < |pattern| then Scanned(pattern[i..], text) else Scan([], false)
    }

    /** One round moves what it collects from the pending to the collected. */
    method Turn(i: nat, vec: seq<Item>, nstr: string) returns (j: nat, vec': seq<Item>, nstr': string)
      requires i < |pattern|
      modifies this`error
      ensures j > i && vec + Pending(i, nstr).items == vec' + Pending(j, nstr').items
      ensures (old(error) || Pending(i, nstr).error) == (error || Pending(j, nstr').error)
    {
      ghost var r := NextRound(pattern[i..], nstr);
      PendingRound(i, nstr, r);
      j, vec', nstr' := Step(i, vec, nstr);
      PendingStep(Pending(i, nstr), i + r.taken, r, j);
      AfterCollects(vec, r, Pending(j, r.text));
    }

    /** The first half of `init`: scan the pattern. */
    method Collect() returns (vec: seq<Item>)
      modifies this`error
      ensures vec == Scanned(pattern, "").items && error == (old(error) || Scanned(pattern, "").error)
    {
      var i: nat, nstr := 0, "";
      vec := [];
      assert pattern[0..] == pattern;
      ghost var all, failed := Pending(0, ""), error;
      while i < |pattern|
        invariant all.items == vec + Pending(i, nstr).items
        invariant (failed || all.error) == (error || Pending(i, nstr).error)
        decreases |pattern| - i
      {
        i, vec, nstr := Turn(i, vec, nstr);
      }
    }

    /** The index may run past the end by one, after a lonely percent sign. */
    lemma PendingAt(i: nat, j: nat, text: string)
      requires i <= |pattern| && (j == i || j > |pattern| == i)
      ensures Pending(j, text) == Scanned(pattern[i..], text)
    {
      if i == |pattern| { assert pattern[i..] == ""; }
    }

    lemma PendingRound(i: nat, text: string, r: Round)
      requires i < |pattern| && r == NextRound(pattern[i..], text)
      ensures Pending(i, text) == After(r, Scanned(pattern[i + r.taken..], r.text))
    {
      ScanOnce(pattern[i..], text);
      assert pattern[i..][r.taken..] == pattern[i + r.taken..];
    }

    lemma PendingStep(whole: Scan, i: nat, r: Round, j: nat)
      requires i <= |pattern| && (j == i || j > |pattern| == i)
      requires whole == After(r, Scanned(pattern[i..], r.text))
      ensures whole == After(r, Pending(j, r.text))
    {
      PendingAt(i, j, r.text);
    }

    /** The second half: a formatter for each item; an unknown letter is an error. */
    method Build(vec: seq<Item>)
      modifies this
      ensures items == old(items) + Fields(vec) && error == (old(error) || !AllKnown(vec))
    {
      for k := 0 to |vec|
        invariant items == old(items) + Fields(vec[..k])
        invariant error == (old(error) || !AllKnown(vec[..k]))
      {
        FieldsStep(vec, k);
        match vec[k] {
          case Text(t) =>
            items := items + [StringItem(t)];
          case Directive(c, fmt) =>
            if c !in LETTERS {
              items := items + [StringItem(UNKNOWN + [c] + ">>")];
              error := true;
            } else {
              items := items + [FieldItem(c, fmt)];
            }
        }
      }
      assert vec[..|vec|] == vec;
    }

    /** `init`. */
    method Init()
      modifies this
      ensures var s := Scanned(pattern, "");
              items == old(items) + Fields(s.items) && error == (old(error) || s.error || !AllKnown(s.items))
      ensures var its := Scanned(pattern, "").items;
              && old(items) <= items && Holds(items[|old(items)|..], its)
              && (error <==> old(error) || Scanned(pattern, "").error || SomeUnknown(its))
    {
      var vec := Collect();
      Build(vec);
      FieldsMeaning(vec);
      KnownMeaning(vec);
    }
  }

  lemma Regroup(a: seq<Item>, b: seq<Item>, c: seq<Item>)
    ensures a + (b + c) == (a + b) + c
  {
  }

  lemma AfterCollects(vec: seq<Item>, r: Round, rest: Scan)
    ensures vec + After(r, rest).items == (vec + r.items) + rest.items
    ensures After(r, rest).error == (r.error || rest.error)
  {
    Regroup(vec, r.items, rest.items);
  }

  /** The letters with a formatter. */
  const LETTERS: string := "mprctndflTFN"

  const UNKNOWN: string := "<<error_format %"

  function Field(it: Item): FormatItem {
    match it
    case Text(t) => StringItem(t)
    case Directive(c, fmt) => if c in LETTERS then FieldItem(c, fmt) else StringItem(UNKNOWN + [c] + ">>")
  }

  function Fields(vec: seq<Item>): seq<FormatItem> {
    if vec == [] then [] else Fields(vec[..|vec| - 1]) + [Field(vec[|vec| - 1])]
  }

  predicate AllKnown(vec: seq<Item>) {
    forall i :: 0 <= i < |vec| ==> vec[i].Directive? ==> vec[i].letter in LETTERS
  }

  /** What a formatter holds for each item: the text; for one of the twelve letters that letter with its format;
      for any other a text that names it. */
  predicate Holds(fs: seq<FormatItem>, its: seq<Item>) {
    |fs| == |its| && forall i :: 0 <= i < |its| ==>
      match its[i]
      case Text(t) => fs[i] == StringItem(t)
      case Directive(c, fmt) =>
        if c in {'m', 'p', 'r', 'c', 't', 'n', 'd', 'f', 'l', 'T', 'F', 'N'} then fs[i] == FieldItem(c, fmt)
        else fs[i] == StringItem("<<error_format %" + [c] + ">>")
  }

  predicate SomeUnknown(its: seq<Item>) {
    exists i :: 0 <= i < |its| && its[i].Directive?
      && its[i].letter !in {'m', 'p', 'r', 'c', 't', 'n', 'd', 'f', 'l', 'T', 'F', 'N'}
  }

  lemma LetterMeaning(c: char)
    ensures c in LETTERS <==> c in {'m', 'p', 'r', 'c', 't', 'n', 'd', 'f', 'l', 'T', 'F', 'N'}
  {
    assert LETTERS == ['m', 'p', 'r', 'c', 't', 'n', 'd', 'f', 'l', 'T', 'F', 'N'];
  }

  lemma {:induction false} FieldsMeaning(vec: seq<Item>)
    ensures Holds(Fields(vec), vec)
    decreases |vec|
  {
    if vec != [] {
      FieldsMeaning(vec[..|vec| - 1]);
      if vec[|vec| - 1].Directive? { LetterMeaning(vec[|vec| - 1].letter); }
    }
  }

  lemma KnownMeaning(vec: seq<Item>)
    ensures !AllKnown(vec) <==> SomeUnknown(vec)
  {
    forall i | 0 <= i < |vec| && vec[i].Directive?
      ensures vec[i].letter in LETTERS <==> vec[i].letter in {'m', 'p', 'r', 'c', 't', 'n', 'd', 'f', 'l', 'T', 'F', 'N'}
    {
      LetterMeaning(vec[i].letter);
    }
  }

  lemma FieldsStep(vec: seq<Item>, k: nat)
    requires k < |vec|
    ensures Fields(vec[..k + 1]) == Fields(vec[..k]) + [Field(vec[k])]
    ensures AllKnown(vec[..k + 1])
        <==> AllKnown(vec[..k]) && (vec[k].Directive? ==> vec[k].letter in LETTERS)
  {
    var u := vec[..k + 1];
    assert u[..k] == vec[..k] && u[k] == vec[k];
    assert forall i :: 0 <= i < k ==> u[i] == vec[..k][i];
  }

  // ----- printing -----

  /** A pattern for a list of items; a percent sign at the end of a text is doubled. */
  function Printed(items: seq<Item>): string {
    if items == [] then "" else PrintedItem(items[0]) + Printed(items[1..])
  }

  function PrintedItem(it: Item): string {
    match it
    case Text(t) => if t != "" && t[|t| - 1] == '%' then t + "%" else t
    case Directive(c, fmt) => "%" + [c] + if fmt == "" then "" else "{" + fmt + "}"
  }

  /** Lists a pattern can spell in front of a last text `tail`: no empty text, a percent sign only at the
      end of one, text without it only before a directive, and no opening brace after a bare directive. */
  predicate WellFormed(items: seq<Item>, tail: string) {
    items == []
    || (WellFormed(items[1..], tail)
        && match items[0]
           case Text(t) =>
             && t != "" && '%' !in t[..|t| - 1]
             && (t[|t| - 1] == '%' || (|items| > 1 && items[1].Directive?))
           case Directive(c, fmt) =>
             && IsAlpha(c) && '}' !in fmt
             && (fmt == "" ==> !("{" <= Printed(items[1..]) + tail)))
  }

  lemma {:induction false} ScanText(t: string, s: string, text: string)
    requires '%' !in t
    ensures Scanned(t + s, text) == Scanned(s, text + t)
  {
    if t == "" {
      assert t + s == s && text + t == text;
    } else {
      var u := t + s;
      assert u[0] == t[0];
      assert u[1..] == t[1..] + s;
      assert t[1..] == t[1..|t|];
      ScanText(t[1..], s, text + [t[0]]);
      assert text + [t[0]] + t[1..] == text + t;
      assert [] + Scanned(u[1..], text + [t[0]]).items == Scanned(u[1..], text + [t[0]]).items;
    }
  }

  lemma {:induction false} ClosingIs(f: string, s: string)
    requires '}' !in f
    ensures Closing(f + "}" + s) == |f|
  {
    var u := f + "}" + s;
    if f != "" {
      ClosingIs(f[1..], s);
      assert u[1..] == f[1..] + "}" + s;
    }
  }

  lemma ScanBare(c: char, s: string, text: string)
    requires IsAlpha(c) && !("{" <= s)
    ensures Scanned("%" + [c] + s, text) == Before(Flush(text) + [Directive(c, "")], Scanned(s, ""))
  {
    var u := "%" + [c] + s;
    assert u[2..] == s;
    if s != "" { assert u[2] == s[0] && (s[0] == '{' ==> "{" <= s); }
  }

  lemma ScanBraced(c: char, f: string, s: string, text: string)
    requires IsAlpha(c) && '}' !in f
    ensures Scanned("%" + [c] + "{" + f + "}" + s, text) == Before(Flush(text) + [Directive(c, f)], Scanned(s, ""))
  {
    var u, n := "%" + [c] + "{" + f + "}" + s, |f|;
    assert u[3..] == f + "}" + s;
    ClosingIs(f, s);
    assert u[3..3 + n] == f;
    assert u[n + 4..] == s;
    assert NextRound(u, text) == Round(n + 4, Flush(text) + [Directive(c, f)], "", false);
    ScanOnce(u, text);
  }

  /** A printed directive, after some text. */
  lemma ScanDirective(it: Item, s: string, text: string)
    requires it.Directive? && IsAlpha(it.letter) && '}' !in it.format
    requires it.format == "" ==> !("{" <= s)
    ensures Scanned(PrintedItem(it) + s, text) == Before(Flush(text) + [it], Scanned(s, ""))
  {
    if it.format == "" {
      assert PrintedItem(it) == "%" + [it.letter];
      ScanBare(it.letter, s, text);
    } else {
      assert PrintedItem(it) + s == "%" + [it.letter] + "{" + it.format + "}" + s;
      ScanBraced(it.letter, it.format, s, text);
    }
  }

  /** A text ending in a percent sign. */
  lemma ScanPercent(t: string, s: string)
    requires t != "" && t[|t| - 1] == '%' && '%' !in t[..|t| - 1]
    ensures Scanned(PrintedItem(Text(t)) + s, "") == Before([Text(t)], Scanned(s, ""))
  {
    var front := t[..|t| - 1];
    assert t == front + "%";
    assert PrintedItem(Text(t)) + s == front + ("%%" + s);
    ScanText(front, "%%" + s, "");
    assert "" + front == front;
    assert ("%%" + s)[2..] == s;
  }

  /** A directive, or a text that ends in a percent sign, is recovered in front of whatever was printed after it. */
  lemma FirstScanned(items: seq<Item>, tail: string)
    requires items != [] && WellFormed(items, tail)
    requires items[0].Text? ==> items[0].text[|items[0].text| - 1] == '%'
    ensures Scanned(Printed(items) + tail, "") == Before([items[0]], Scanned(Printed(items[1..]) + tail, ""))
  {
    var it, rest := items[0], items[1..];
    var after := Printed(rest) + tail;
    Glue("", PrintedItem(it), Printed(rest), tail);
    assert "" + Printed(items) == Printed(items);
    assert "" + (PrintedItem(it) + after) == PrintedItem(it) + after;
    if it.Directive? {
      ScanDirective(it, after, "");
      assert [] + [it] == [it];
    } else {
      ScanPercent(it.text, after);
    }
  }

  lemma FirstOne(items: seq<Item>)
    requires items != []
    ensures [items[0]] + items[1..] == items
  {
  }

  lemma FirstTwo(items: seq<Item>)
    requires |items| > 1
    ensures items[1..][1..] == items[2..] && [items[0], items[1]] + items[2..] == items
  {
  }

  /** Scanning what was printed recovers every well-formed list, without error; a text behind the last
      directive is lost. */
  lemma {:induction false} ScanPrinted(items: seq<Item>, tail: string)
    requires WellFormed(items, tail) && '%' !in tail
    ensures Scanned(Printed(items) + tail, "") == Scan(items, false)
    decreases |items|
  {
    if items == [] {
      ScanText(tail, "", "");
      assert "" + tail == tail + "" == tail;
    } else if items[0].Directive? || items[0].text[|items[0].text| - 1] == '%' {
      ScanPrinted(items[1..], tail);
      FirstScanned(items, tail);
      FirstOne(items);
    } else {
      TextThenDirective(items, tail);
      FirstTwo(items);
      ScanPrinted(items[2..], tail);
    }
  }

  lemma Glue(a: string, b: string, c: string, d: string)
    ensures (a + (b + c)) + d == a + (b + (c + d))
  {
  }

  lemma TextThenDirective(items: seq<Item>, tail: string)
    requires WellFormed(items, tail) && |items| > 1 && items[0].Text? && items[1].Directive?
    requires items[0].text[|items[0].text| - 1] != '%'
    ensures Scanned(Printed(items) + tail, "")
         == Before([items[0], items[1]], Scanned(Printed(items[2..]) + tail, ""))
  {
    var t, it, after := items[0].text, items[1], Printed(items[2..]) + tail;
    assert items[1..][1..] == items[2..] && items[1..][0] == it;
    assert '%' !in t by { assert t == t[..|t| - 1] + [t[|t| - 1]]; }
    Glue(t, PrintedItem(it), Printed(items[2..]), tail);
    assert PrintedItem(items[0]) == t;
    assert Printed(items[1..]) == PrintedItem(it) + Printed(items[2..]);
    ScanText(t, PrintedItem(it) + after, "");
    assert "" + t == t;
    ScanDirective(it, after, t);
    assert Flush(t) + [it] == [items[0], it];
  }

  /** A formatter made from a printed list shows exactly that list. */
  method Reformat(its: seq<Item>, tail: string) returns (f: LogFormatter)
    requires WellFormed(its, tail) && '%' !in tail
    ensures fresh(f) && Holds(f.items, its) && (f.error <==> SomeUnknown(its))
  {
    f := new LogFormatter(Printed(its) + tail);
    f.Init();
    ScanPrinted(its, tail);
  }

  // ----- patterns that are not well formed -----

  /** The letters of the alphabet. */
  predicate Letter(c: char) {
    || c in {'a', 'b', 'c', 'd', 'e', 'f', 'g', 'h', 'i', 'j', 'k', 'l', 'm', 'n', 'o', 'p', 'q', 'r', 's', 't', 'u', 'v', 'w', 'x', 'y', 'z'}
    || c in {'A', 'B', 'C', 'D', 'E', 'F', 'G', 'H', 'I', 'J', 'K', 'L', 'M', 'N', 'O', 'P', 'Q', 'R', 'S', 'T', 'U', 'V', 'W', 'X', 'Y', 'Z'}
  }

  /** What begins a directive behind a percent sign. */
  lemma AlphaMeaning(c: char)
    ensures IsAlpha(c) <==> Letter(c)
  {
  }

  /** A percent sign at the very end is dropped. */
  lemma LonelyPercent(t: string)
    requires '%' !in t
    ensures Scanned(t + "%", "") == Scan(if t == "" then [] else [Text(t)], false)
  {
    ScanText(t, "%", "");
    assert "" + t == t;
    assert "%"[1..] == "";
  }

  /** One in front of anything but a letter or another percent sign is dropped with it. */
  lemma NoDirective(t: string, c: char, s: string)
    requires '%' !in t && c != '%' && !Letter(c)
    ensures Scanned(t + ("%" + [c] + s), "") == Before(if t == "" then [] else [Text(t)], Scanned(s, ""))
  {
    AlphaMeaning(c);
    var u := "%" + [c] + s;
    ScanText(t, u, "");
    assert "" + t == t && u[0] == '%' && u[1] == c && u[2..] == s;
  }

  /** A format that is not closed is an error: it is marked, in front of the text before it, and the scan goes on at the
      brace. */
  lemma OpenFormat(t: string, c: char, s: string)
    requires '%' !in t && '}' !in s && Letter(c)
    ensures Scanned(t + ("%" + [c] + "{" + s), "")
         == Scan([Directive(c, "<<pattern_error>>")] + (if t == "" then [] else [Text(t)]) + Scanned("{" + s, "").items, true)
  {
    ScanText(t, "%" + [c] + "{" + s, "");
    assert "" + t == t;
    OpenAt("%" + [c] + "{" + s, c, s, t);
  }

  lemma OpenAt(u: string, c: char, s: string, text: string)
    requires u == "%" + [c] + "{" + s && '}' !in s && Letter(c)
    ensures Scanned(u, text)
         == Scan([Directive(c, "<<pattern_error>>")] + (if text == "" then [] else [Text(text)]) + Scanned("{" + s, "").items, true)
  {
    AlphaMeaning(c);
    NotClosed(s);
    Braced(u, c, s);
    ScanOnce(u, text);
  }

  lemma Braced(u: string, c: char, s: string)
    requires u == "%" + [c] + "{" + s
    ensures u[0] == '%' && u[1] == c && u[2] == '{' && u[3..] == s && u[2..] == "{" + s
  {
  }

  lemma {:induction false} NotClosed(s: string)
    requires '}' !in s
    ensures Closing(s) == |s|
  {
    if s != "" { NotClosed(s[1..]); }
  }

  const DATE: Item := Directive('d', "%Y-%m-%d %H:%M:%S")
  const LINE: Item := Directive('n', "")

  lemma DateText()
    ensures "%d{%Y-%m-%d %H:%M:%S}%n" == PrintedItem(DATE) + "%n"
  {
  }

  lemma LineText()
    ensures "%n" == PrintedItem(LINE) + ""
  {
  }

  /** The head of the default pattern. */
  lemma DatePattern()
    ensures Scanned("%d{%Y-%m-%d %H:%M:%S}%n", "") == Scan([Directive('d', "%Y-%m-%d %H:%M:%S"), Directive('n', "")], false)
  {
    DateText();
    ScanDate("%n");
    LineText();
    ScanDirective(LINE, "", "");
  }

  lemma ScanDate(rest: string)
    ensures Scanned(PrintedItem(DATE) + rest, "") == Before([DATE], Scanned(rest, ""))
  {
    ScanDirective(DATE, rest, "");
  }
}
