/** Titles of the per-course sheets: the course short name reduced to ASCII
    letters and digits, cut to the spreadsheet's 31-character limit, with a
    fixed title when nothing is left. */
module SheetName {
  import opened Text

  /** The longest sheet title the workbook format accepts. */
  const MaxTitleLength: nat := 31

  /** The title used when a short name has no letter or digit. */
  const FallbackTitle: string := "Course"

  predicate AllAlnum(s: string) {
    forall i :: 0 <= i < |s| ==> IsAsciiAlnum(s[i])
  }

  /** What the filter keeps of one character. */
  function Kept(c: char): string {
    if IsAsciiAlnum(c) then [c] else []
  }

  /** Deletes every character outside `[A-Za-z0-9]`, keeping the order of the
      rest (`re.sub(r'[^A-Za-z0-9]', '', name)`). */
  function KeepAlnum(s: string): (r: string)
    ensures |r| <= |s|
    ensures AllAlnum(r)
  {
    if s == [] then [] else Kept(s[0]) + KeepAlnum(s[1..])
  }

  /** Every letter and digit of the input is kept, as often as it occurs. */
  lemma {:induction false} KeepAlnumCounts(s: string)
    ensures forall c :: IsAsciiAlnum(c) ==> multiset(KeepAlnum(s))[c] == multiset(s)[c]
  {
    if s != [] {
      KeepAlnumCounts(s[1..]);
      assert s == [s[0]] + s[1..];
      assert multiset(s) == multiset{s[0]} + multiset(s[1..]);
      assert multiset(KeepAlnum(s)) == multiset(Kept(s[0])) + multiset(KeepAlnum(s[1..]));
    }
  }

  /** The filter works piece by piece, so it keeps the order of the input. */
  lemma {:induction false} KeepAlnumConcat(a: string, b: string)
    ensures KeepAlnum(a + b) == KeepAlnum(a) + KeepAlnum(b)
  {
    if a != [] {
      calc {
        KeepAlnum(a + b);
        { assert (a + b)[0] == a[0] && (a + b)[1..] == a[1..] + b; }
        Kept(a[0]) + KeepAlnum(a[1..] + b);
        { KeepAlnumConcat(a[1..], b); }
        Kept(a[0]) + (KeepAlnum(a[1..]) + KeepAlnum(b));
        KeepAlnum(a) + KeepAlnum(b);
      }
    } else {
      assert a + b == b;
    }
  }

  /** A string of letters and digits passes through unchanged. */
  lemma {:induction false} KeepAlnumFixes(s: string)
    requires AllAlnum(s)
    ensures KeepAlnum(s) == s
  {
    if s != [] {
      KeepAlnumFixes(s[1..]);
    }
  }

  /** Nothing is left exactly when the input has no letter or digit. */
  lemma {:induction false} KeepAlnumEmpty(s: string)
    ensures KeepAlnum(s) == [] <==> forall i :: 0 <= i < |s| ==> !IsAsciiAlnum(s[i])
  {
    if s != [] {
      KeepAlnumEmpty(s[1..]);
      if forall i :: 0 <= i < |s[1..]| ==> !IsAsciiAlnum(s[1..][i]) {
        forall i | 0 < i < |s| ensures !IsAsciiAlnum(s[i]) {
          assert s[i] == s[1..][i - 1];
        }
      }
    }
  }

  /** `sanitize_sheet_name`: the first 31 characters of the input once every
      character other than a letter or digit is deleted. */
  function Sanitize(name: string): (r: string)
    ensures |r| <= MaxTitleLength
    ensures AllAlnum(r)
    ensures |r| == if |KeepAlnum(name)| < MaxTitleLength then |KeepAlnum(name)| else MaxTitleLength
    ensures r <= KeepAlnum(name)
  {
    var cleaned := KeepAlnum(name);
    if |cleaned| <= MaxTitleLength then cleaned else cleaned[..MaxTitleLength]
  }

  /** Sanitising a sanitised name changes nothing. */
  lemma SanitizeIdempotent(name: string)
    ensures Sanitize(Sanitize(name)) == Sanitize(name)
  {
    KeepAlnumFixes(Sanitize(name));
  }

  /** A name of at most 31 letters and digits is its own sheet title. */
  lemma SanitizeKeepsValidName(name: string)
    requires AllAlnum(name) && |name| <= MaxTitleLength
    ensures Sanitize(name) == name
  {
    KeepAlnumFixes(name);
  }

  /** The title `main` gives a course's sheet: the sanitised short name, or
      "Course" when that is empty. */
  function SheetTitle(shortname: string): (t: string)
    ensures 1 <= |t| <= MaxTitleLength && AllAlnum(t)
  {
    var s := Sanitize(shortname);
    if s == "" then FallbackTitle else s
  }

  /** The fallback is taken exactly for names without a letter or digit;
      any other name keeps its sanitised form. */
  lemma SheetTitleFallback(shortname: string)
    ensures (forall i :: 0 <= i < |shortname| ==> !IsAsciiAlnum(shortname[i])) ==>
              SheetTitle(shortname) == FallbackTitle
    ensures (exists i :: 0 <= i < |shortname| && IsAsciiAlnum(shortname[i])) ==>
              Sanitize(shortname) != "" && SheetTitle(shortname) == Sanitize(shortname)
  {
    KeepAlnumEmpty(shortname);
  }
}
