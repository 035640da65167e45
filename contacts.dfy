/** The contact list (js/contacts.js): sorting by first name, grouping into
    letter sections A to Z, the initials shown for a contact, the phone and
    email checks done before saving, and the one-slot pending deletion.
    `localeCompare` is modelled by a collation key (`collate`), so that two
    first names compare as their keys do. */
module Contacts {
  import opened Optional
  import opened JsString
  import JsArray

  datatype Contact = Contact(id: string, firstName: string, lastName: string, email: string, phone: string, color: string)

  // ---------------------------------------------------------------------
  // Sorting (processAndDisplayContacts)

  ghost predicate Sorted(s: seq<Contact>, collate: string -> int) {
    forall i, j :: 0 <= i < j < |s| ==> collate(s[i].firstName) <= collate(s[j].firstName)
  }

  /** `x` placed before the first entry whose first name does not collate
      before its own. */
  function Insert(x: Contact, s: seq<Contact>, collate: string -> int): seq<Contact> {
    if |s| == 0 then [x]
    else if collate(x.firstName) <= collate(s[0].firstName) then [x] + s
    else [s[0]] + Insert(x, s[1..], collate)
  }

  /** `contacts.sort((a, b) => a.firstName.localeCompare(b.firstName))`, a
      stable sort by first name. */
  function SortByFirstName(cs: seq<Contact>, collate: string -> int): seq<Contact> {
    if |cs| == 0 then [] else Insert(cs[0], SortByFirstName(cs[1..], collate), collate)
  }

  /** Every key of `s` is at least `b`. */
  ghost predicate AllAtLeast(s: seq<Contact>, b: int, collate: string -> int) {
    forall j :: 0 <= j < |s| ==> b <= collate(s[j].firstName)
  }

  /** A sorted list headed by `y`, whose tail is sorted and at least `y`. */
  lemma ConsSorted(y: Contact, t: seq<Contact>, collate: string -> int)
    requires Sorted(t, collate) && AllAtLeast(t, collate(y.firstName), collate)
    ensures Sorted([y] + t, collate)
  {
    var r := [y] + t;
    forall i, j | 0 <= i < j < |r| ensures collate(r[i].firstName) <= collate(r[j].firstName) {
      assert r[j] == t[j - 1];
      if i > 0 {
        assert r[i] == t[i - 1];
      }
    }
  }

  /** The tail of a sorted list is sorted and at least its head. */
  lemma SortedTail(s: seq<Contact>, collate: string -> int)
    requires Sorted(s, collate) && |s| > 0
    ensures Sorted(s[1..], collate) && AllAtLeast(s[1..], collate(s[0].firstName), collate)
  {
  }

  /** A sorted list whose head is at least `b` is at least `b`. */
  lemma SortedAtLeast(s: seq<Contact>, b: int, collate: string -> int)
    requires Sorted(s, collate) && |s| > 0 && b <= collate(s[0].firstName)
    ensures AllAtLeast(s, b, collate)
  {
  }

  lemma AllAtLeastCons(y: Contact, t: seq<Contact>, b: int, collate: string -> int)
    requires b <= collate(y.firstName) && AllAtLeast(t, b, collate)
    ensures AllAtLeast([y] + t, b, collate)
  {
  }

  lemma AllAtLeastTail(s: seq<Contact>, b: int, collate: string -> int)
    requires AllAtLeast(s, b, collate) && |s| > 0
    ensures AllAtLeast(s[1..], b, collate)
  {
  }

  /** Inserting a contact at least `b` into a list at least `b` keeps it so. */
  lemma {:induction false} InsertAtLeast(x: Contact, s: seq<Contact>, b: int, collate: string -> int)
    requires AllAtLeast(s, b, collate) && b <= collate(x.firstName)
    ensures AllAtLeast(Insert(x, s, collate), b, collate)
  {
    if |s| == 0 {
      AllAtLeastCons(x, [], b, collate);
    } else if collate(x.firstName) <= collate(s[0].firstName) {
      AllAtLeastCons(x, s, b, collate);
    } else {
      AllAtLeastTail(s, b, collate);
      InsertAtLeast(x, s[1..], b, collate);
      AllAtLeastCons(s[0], Insert(x, s[1..], collate), b, collate);
    }
  }

  lemma {:induction false} InsertSorted(x: Contact, s: seq<Contact>, collate: string -> int)
    requires Sorted(s, collate)
    ensures Sorted(Insert(x, s, collate), collate)
    ensures multiset(Insert(x, s, collate)) == multiset(s) + multiset{x}
  {
    if |s| == 0 {
    } else if collate(x.firstName) <= collate(s[0].firstName) {
      SortedAtLeast(s, collate(x.firstName), collate);
      ConsSorted(x, s, collate);
    } else {
      var t := s[1..];
      SortedTail(s, collate);
      InsertSorted(x, t, collate);
      InsertAtLeast(x, t, collate(s[0].firstName), collate);
      ConsSorted(s[0], Insert(x, t, collate), collate);
      MultisetCons(s);
    }
  }

  /** The sorted list is ordered by first name and holds the same contacts. */
  lemma {:induction false} SortByFirstNameSorts(cs: seq<Contact>, collate: string -> int)
    ensures Sorted(SortByFirstName(cs, collate), collate)
    ensures multiset(SortByFirstName(cs, collate)) == multiset(cs)
  {
    if |cs| > 0 {
      SortByFirstNameSorts(cs[1..], collate);
      InsertSorted(cs[0], SortByFirstName(cs[1..], collate), collate);
      MultisetCons(cs);
    }
  }

  lemma MultisetCons(cs: seq<Contact>)
    requires |cs| > 0
    ensures multiset(cs) == multiset(cs[1..]) + multiset{cs[0]}
  {
    assert cs == [cs[0]] + cs[1..];
  }

  /** The contacts whose first name has collation key `k`, in order. */
  function WithKey(s: seq<Contact>, k: int, collate: string -> int): seq<Contact> {
    if |s| == 0 then []
    else (if collate(s[0].firstName) == k then [s[0]] else []) + WithKey(s[1..], k, collate)
  }

  /** The contacts with key `k` of a list headed by `y`. */
  lemma WithKeyCons(y: Contact, rest: seq<Contact>, k: int, collate: string -> int)
    ensures WithKey([y] + rest, k, collate) == (if collate(y.firstName) == k then [y] else []) + WithKey(rest, k, collate)
  {
    assert ([y] + rest)[1..] == rest;
  }

  /** Inserting `x` puts it among the contacts of its key ahead of all of
      them: every contact it passes has a smaller key. */
  lemma {:induction false} InsertWithKey(x: Contact, s: seq<Contact>, k: int, collate: string -> int)
    ensures WithKey(Insert(x, s, collate), k, collate) ==
      (if collate(x.firstName) == k then [x] else []) + WithKey(s, k, collate)
  {
    if |s| == 0 {
      WithKeyCons(x, [], k, collate);
    } else if collate(x.firstName) <= collate(s[0].firstName) {
      WithKeyCons(x, s, k, collate);
    } else {
      var t := s[1..];
      var ys := if collate(s[0].firstName) == k then [s[0]] else [];
      var xs := if collate(x.firstName) == k then [x] else [];
      InsertWithKey(x, t, k, collate);
      WithKeyCons(s[0], Insert(x, t, collate), k, collate);
      WithKeyCons(s[0], t, k, collate);
      assert s == [s[0]] + t;
      SwapEmpty(ys, xs, WithKey(t, k, collate));
    }
  }

  lemma SwapEmpty(a: seq<Contact>, b: seq<Contact>, w: seq<Contact>)
    requires a == [] || b == []
    ensures a + (b + w) == b + (a + w)
  {
  }

  /** The sort is stable: contacts whose first names collate equal keep
      their input order. */
  lemma {:induction false} SortIsStable(cs: seq<Contact>, k: int, collate: string -> int)
    ensures WithKey(SortByFirstName(cs, collate), k, collate) == WithKey(cs, k, collate)
  {
    if |cs| > 0 {
      SortIsStable(cs[1..], k, collate);
      SortByFirstNameSorts(cs[1..], collate);
      InsertWithKey(cs[0], SortByFirstName(cs[1..], collate), k, collate);
    }
  }

  // ---------------------------------------------------------------------
  // Letter sections (filterAndRenderContacts, renderLetterSection)

  /** `toUpperCase` on one character, for the ASCII letters. */
  function UpperChar(c: char): (u: char)
    ensures 'a' <= c <= 'z' ==> 'A' <= u <= 'Z'
    ensures !('a' <= c <= 'z') ==> u == c
  {
    if 'a' <= c <= 'z' then (c as int - 32) as char else c
  }

  /** `name.toUpperCase().startsWith(letter)` for a one-letter string. */
  predicate StartsWithLetter(name: string, letter: char) {
    |name| > 0 && UpperChar(name[0]) == letter
  }

  /** `sortedContacts.filter(...)` for one letter. */
  function FilterLetter(cs: seq<Contact>, letter: char): (r: seq<Contact>)
    ensures |r| <= |cs|
    ensures forall c :: c in r <==> c in cs && StartsWithLetter(c.firstName, letter)
  {
    if |cs| == 0 then []
    else (if StartsWithLetter(cs[0].firstName, letter) then [cs[0]] else []) + FilterLetter(cs[1..], letter)
  }

  /** `s` is `t` with some entries left out, the rest in their order. */
  ghost predicate Subsequence(s: seq<Contact>, t: seq<Contact>)
    decreases |t|
  {
    |s| == 0 || (|t| > 0 && ((s[0] == t[0] && Subsequence(s[1..], t[1..])) || Subsequence(s, t[1..])))
  }

  /** A section keeps the order of the sorted list. */
  lemma {:induction false} FilterLetterKeepsOrder(cs: seq<Contact>, letter: char)
    ensures Subsequence(FilterLetter(cs, letter), cs)
  {
    if |cs| > 0 {
      FilterLetterKeepsOrder(cs[1..], letter);
      var rest := FilterLetter(cs[1..], letter);
      if StartsWithLetter(cs[0].firstName, letter) {
        var r := [cs[0]] + rest;
        assert FilterLetter(cs, letter) == r && r[1..] == rest;
      } else {
        assert FilterLetter(cs, letter) == rest;
      }
    }
  }

  /** `'ABCDEFGHIJKLMNOPQRSTUVWXYZ'.split('')`. */
  const Letters: seq<char> := seq(26, i requires 0 <= i < 26 => ('A' as int + i) as char)

  /** A letter section: its letter and its contacts. */
  datatype Section = Section(letter: char, contacts: seq<Contact>)

  /** Some section is headed by `letter`. */
  ghost predicate HasSection(sections: seq<Section>, letter: char) {
    exists k :: 0 <= k < |sections| && sections[k].letter == letter
  }

  /** Every section has a letter below `'A' + n`, holds exactly its
      letter's contacts, and is not empty. */
  ghost predicate SectionsExact(cs: seq<Contact>, sections: seq<Section>, n: int) {
    forall k :: 0 <= k < |sections| ==>
      && 'A' <= sections[k].letter && sections[k].letter as int < 'A' as int + n
      && sections[k].contacts == FilterLetter(cs, sections[k].letter)
      && |sections[k].contacts| > 0
  }

  /** The sections' letters increase. */
  ghost predicate SectionsOrdered(sections: seq<Section>) {
    forall k, l :: 0 <= k < l < |sections| ==> sections[k].letter < sections[l].letter
  }

  /** Every letter below `'A' + n` with contacts has its section. */
  ghost predicate SectionsCover(cs: seq<Contact>, sections: seq<Section>, n: int) {
    forall letter :: 'A' <= letter && letter as int < 'A' as int + n && |FilterLetter(cs, letter)| > 0 ==>
      HasSection(sections, letter)
  }

  /** The sections built from `cs` for the letters before `'A' + n`. */
  ghost predicate SectionsBelow(cs: seq<Contact>, sections: seq<Section>, n: int) {
    SectionsExact(cs, sections, n) && SectionsOrdered(sections) && SectionsCover(cs, sections, n)
  }

  /** The section that one round of the loop adds, if its letter has
      contacts. */
  function NextSections(cs: seq<Contact>, sections: seq<Section>, i: nat): seq<Section>
    requires i < 26
  {
    var letter := ('A' as int + i) as char;
    var f := FilterLetter(cs, letter);
    if |f| > 0 then sections + [Section(letter, f)] else sections
  }

  lemma StepExact(cs: seq<Contact>, sections: seq<Section>, i: nat)
    requires SectionsExact(cs, sections, i) && i < 26
    ensures SectionsExact(cs, NextSections(cs, sections, i), i + 1)
  {
  }

  lemma StepOrdered(cs: seq<Contact>, sections: seq<Section>, i: nat)
    requires SectionsExact(cs, sections, i) && SectionsOrdered(sections) && i < 26
    ensures SectionsOrdered(NextSections(cs, sections, i))
  {
  }

  lemma StepCover(cs: seq<Contact>, sections: seq<Section>, i: nat)
    requires SectionsCover(cs, sections, i) && i < 26
    ensures SectionsCover(cs, NextSections(cs, sections, i), i + 1)
  {
    var next := NextSections(cs, sections, i);
    forall l | 'A' <= l && l as int < 'A' as int + i + 1 && |FilterLetter(cs, l)| > 0
      ensures HasSection(next, l)
    {
      if l as int == 'A' as int + i {
        assert next[|next| - 1].letter == l;
      } else {
        var k :| 0 <= k < |sections| && sections[k].letter == l;
        assert next[k] == sections[k];
      }
    }
  }

  /** One round of the loop keeps the sections built so far right. */
  lemma SectionsStep(cs: seq<Contact>, sections: seq<Section>, i: nat)
    requires SectionsBelow(cs, sections, i) && i < 26
    ensures SectionsBelow(cs, NextSections(cs, sections, i), i + 1)
  {
    StepExact(cs, sections, i);
    StepOrdered(cs, sections, i);
    StepCover(cs, sections, i);
  }

  /** filterAndRenderContacts: one section per letter A to Z that has at
      least one contact, in alphabetical order, holding exactly the
      contacts whose first name starts with that letter, in list order. */
  method FilterAndRenderContacts(sortedContacts: seq<Contact>) returns (sections: seq<Section>)
    ensures forall k :: 0 <= k < |sections| ==>
      && 'A' <= sections[k].letter <= 'Z'
      && sections[k].contacts == FilterLetter(sortedContacts, sections[k].letter)
      && |sections[k].contacts| > 0
    ensures forall k, l :: 0 <= k < l < |sections| ==> sections[k].letter < sections[l].letter
    ensures forall letter :: 'A' <= letter <= 'Z' && |FilterLetter(sortedContacts, letter)| > 0 ==>
      HasSection(sections, letter)
  {
    sections := [];
    var i := 0;
    while i < |Letters|
      invariant 0 <= i <= |Letters|
      invariant SectionsBelow(sortedContacts, sections, i)
    {
      var letter := Letters[i];
      SectionsStep(sortedContacts, sections, i);
      ghost var before := sections;
      var filteredContacts := FilterLetter(sortedContacts, letter);
      if |filteredContacts| > 0 {
        sections := sections + [Section(letter, filteredContacts)];
      }
      assert sections == NextSections(sortedContacts, before, i);
      i := i + 1;
    }
  }

  /** processAndDisplayContacts: the contacts, sorted by first name, grouped
      by letter. */
  method ProcessAndDisplayContacts(contacts: seq<Contact>, collate: string -> int) returns (sections: seq<Section>)
    ensures forall k :: 0 <= k < |sections| ==>
      sections[k].contacts == FilterLetter(SortByFirstName(contacts, collate), sections[k].letter)
    ensures forall k :: 0 <= k < |sections| ==> Sorted(sections[k].contacts, collate)
    ensures forall k :: 0 <= k < |sections| ==> 'A' <= sections[k].letter <= 'Z' && |sections[k].contacts| > 0
    ensures forall k, l :: 0 <= k < l < |sections| ==> sections[k].letter < sections[l].letter
    ensures forall letter :: 'A' <= letter <= 'Z' && |FilterLetter(SortByFirstName(contacts, collate), letter)| > 0 ==>
      HasSection(sections, letter)
  {
    var sortedContacts := SortByFirstName(contacts, collate);
    SortByFirstNameSorts(contacts, collate);
    sections := FilterAndRenderContacts(sortedContacts);
    forall k | 0 <= k < |sections| ensures Sorted(sections[k].contacts, collate) {
      FilterLetterSorted(sortedContacts, sections[k].letter, collate);
    }
  }

  lemma {:induction false} FilterLetterSorted(cs: seq<Contact>, letter: char, collate: string -> int)
    requires Sorted(cs, collate)
    ensures Sorted(FilterLetter(cs, letter), collate)
  {
    if |cs| > 0 {
      FilterLetterSorted(cs[1..], letter, collate);
      var rest := FilterLetter(cs[1..], letter);
      forall j | 0 <= j < |rest| ensures collate(cs[0].firstName) <= collate(rest[j].firstName) {
        assert rest[j] in cs[1..];
      }
    }
  }

  /** A contact whose first name does not start with a letter A to Z after
      upper-casing is in no section. */
  lemma NotRenderedWithoutLetter(cs: seq<Contact>, c: Contact, letter: char)
    requires |c.firstName| == 0 || !('A' <= UpperChar(c.firstName[0]) <= 'Z')
    requires 'A' <= letter <= 'Z'
    ensures c !in FilterLetter(cs, letter)
  {
  }

  // ---------------------------------------------------------------------
  // Initials (createContactElement)

  /** `name.charAt(0).toUpperCase()`: nothing for an empty name. */
  function FirstLetter(name: string): string {
    if |name| == 0 then "" else [UpperChar(name[0])]
  }

  /** The initials shown in a contact's badge. */
  function ContactInitials(c: Contact): (r: string)
    ensures |r| == (if |c.firstName| > 0 then 1 else 0) + (if |c.lastName| > 0 then 1 else 0)
    ensures |r| == 2 <==> |c.firstName| > 0 && |c.lastName| > 0
    ensures |c.firstName| > 0 ==> r[0] == UpperChar(c.firstName[0])
    ensures |c.lastName| > 0 ==> r[|r| - 1] == UpperChar(c.lastName[0])
  {
    FirstLetter(c.firstName) + FirstLetter(c.lastName)
  }

  /** Every contact of section `letter` shows `letter` as its first initial. */
  lemma SectionLetterIsInitial(cs: seq<Contact>, letter: char, c: Contact)
    requires c in FilterLetter(cs, letter)
    ensures |ContactInitials(c)| >= 1 && ContactInitials(c)[0] == letter
  {
  }

  // ---------------------------------------------------------------------
  // Validation (saveContact, saveNewContact)

  /** `[^\s@]`. */
  predicate EmailChar(c: char) {
    !IsWhitespace(c) && c != '@'
  }

  predicate AllEmailChars(s: string) {
    forall i :: 0 <= i < |s| ==> EmailChar(s[i])
  }

  /** `/^[^\s@]+@[^\s@]+\.[^\s@]+$/.test(s)`: a single '@' with something
      before it, and after it a '.' that is neither first nor last. */
  predicate IsValidEmail(s: string) {
    var at := JsArray.IndexOf(s, '@');
    && at > 0
    && AllEmailChars(s[..at])
    && AllEmailChars(s[at + 1..])
    && exists j :: at + 1 < j < |s| - 1 && s[j] == '.'
  }

  /** Every address of the regular expression's shape is accepted. */
  lemma EmailAccepts(a: string, b: string, c: string)
    requires |a| > 0 && |b| > 0 && |c| > 0
    requires AllEmailChars(a) && AllEmailChars(b) && AllEmailChars(c)
    ensures IsValidEmail(a + "@" + b + "." + c)
  {
    var s := a + "@" + b + "." + c;
    assert s[..|a|] == a;
    assert '@' !in a by {
      forall i | 0 <= i < |a| ensures a[i] != '@' { assert EmailChar(a[i]); }
    }
    JsArray.IndexOfIs(s, '@', |a|);
    var rest := s[|a| + 1..];
    assert rest == b + "." + c;
    assert s[|a| + 1 + |b|] == '.';
    forall i | 0 <= i < |rest| ensures EmailChar(rest[i]) {
      if i < |b| {
        assert rest[i] == b[i];
      } else if i > |b| {
        assert rest[i] == c[i - |b| - 1];
      }
    }
  }

  /** Every accepted address has the regular expression's shape. */
  lemma EmailParts(s: string) returns (a: string, b: string, c: string)
    requires IsValidEmail(s)
    ensures s == a + "@" + b + "." + c
    ensures |a| > 0 && |b| > 0 && |c| > 0
    ensures AllEmailChars(a) && AllEmailChars(b) && AllEmailChars(c)
  {
    var at := JsArray.IndexOf(s, '@');
    var j :| at + 1 < j < |s| - 1 && s[j] == '.';
    a, b, c := s[..at], s[at + 1..j], s[j + 1..];
    FivePieces(s, at, j);
    EmailCharsWithin(s, at + 1, at + 1, j);
    EmailCharsWithin(s, at + 1, j + 1, |s|);
  }

  /** A string cut at two of its positions. */
  lemma FivePieces(s: string, at: nat, j: nat)
    requires at < j < |s|
    ensures s == s[..at] + [s[at]] + s[at + 1..j] + [s[j]] + s[j + 1..]
  {
    assert s[at..] == [s[at]] + s[at + 1..j] + [s[j]] + s[j + 1..];
    assert s == s[..at] + s[at..];
  }

  /** Any slice of an all-email-character suffix is all email characters. */
  lemma EmailCharsWithin(s: string, from: nat, lo: nat, hi: nat)
    requires from <= lo <= hi <= |s| && AllEmailChars(s[from..])
    ensures AllEmailChars(s[lo..hi])
  {
    forall i | 0 <= i < hi - lo ensures EmailChar(s[lo..hi][i]) {
      assert s[lo..hi][i] == s[from..][lo - from + i];
    }
  }

  /** `[\d\-\/\+\s]`, with `\d` the ASCII digits. */
  predicate PhoneChar(c: char) {
    ('0' <= c <= '9') || c == '-' || c == '/' || c == '+' || IsWhitespace(c)
  }

  /** `/^[\d\-\/\+\s]+$/.test(s)`. */
  predicate IsValidPhone(s: string) {
    |s| > 0 && forall i :: 0 <= i < |s| ==> PhoneChar(s[i])
  }

  /** The phone check runs on the trimmed value: it passes exactly when the
      value holds something other than whitespace and every character is
      allowed. */
  lemma TrimmedPhone(s: string)
    ensures IsValidPhone(Trim(s)) <==> !AllWhitespace(s) && forall i :: 0 <= i < |s| ==> PhoneChar(s[i])
  {
    var i, j := TrimShape(s);
    TrimEmptyIffBlank(s);
    if IsValidPhone(Trim(s)) {
      MarginsAllowed(s, i, j);
    }
  }

  /** Whitespace margins around a run of phone characters leave every
      character of `s` a phone character. */
  lemma MarginsAllowed(s: string, i: nat, j: nat)
    requires i <= j <= |s| && AllWhitespace(s[..i]) && AllWhitespace(s[j..])
    requires forall k :: 0 <= k < j - i ==> PhoneChar(s[i..j][k])
    ensures forall k :: 0 <= k < |s| ==> PhoneChar(s[k])
  {
    forall k | 0 <= k < |s| ensures PhoneChar(s[k]) {
      if k < i {
        assert s[k] == s[..i][k];
      } else if k >= j {
        assert s[k] == s[j..][k - j];
      } else {
        assert s[k] == s[i..j][k - i];
      }
    }
  }

  /** What pressing save on the edit form leads to. */
  datatype SaveOutcome =
    | NameRequired   // 'First name and last name are required.'
    | InvalidEmail   // 'Invalid email format. ...'
    | InvalidPhone   // 'Phone number should contain only numbers, -, /, or +'
    | Send(contact: Contact)

  /** saveContact up to the PUT request: fields trimmed, then names, email
      and phone checked in this order; the request is made only when all
      pass. */
  function SaveContact(id: string, firstName: string, lastName: string, email: string, phone: string, color: string): (r: SaveOutcome)
    ensures r.Send? <==>
      Trim(firstName) != "" && Trim(lastName) != "" && IsValidEmail(Trim(email)) && IsValidPhone(Trim(phone))
    ensures r == NameRequired <==> Trim(firstName) == "" || Trim(lastName) == ""
    ensures r == InvalidEmail ==> !IsValidEmail(Trim(email))
    ensures r == InvalidPhone ==> IsValidEmail(Trim(email)) && !IsValidPhone(Trim(phone))
    ensures r.Send? ==> r.contact == Contact(id, Trim(firstName), Trim(lastName), Trim(email), Trim(phone), Trim(color))
  {
    var f, l, e, p, c := Trim(firstName), Trim(lastName), Trim(email), Trim(phone), Trim(color);
    if f == "" || l == "" then NameRequired
    else if !IsValidEmail(e) then InvalidEmail
    else if !IsValidPhone(p) then InvalidPhone
    else Send(Contact(id, f, l, e, p, c))
  }

  /** saveNewContact up to the POST request: only the trimmed phone is
      checked. */
  function SaveNewContact(firstName: string, lastName: string, email: string, phone: string, color: string): (r: SaveOutcome)
    ensures r.Send? <==> IsValidPhone(Trim(phone))
    ensures !r.Send? ==> r == InvalidPhone
    ensures r.Send? ==> r.contact == Contact("", Trim(firstName), Trim(lastName), Trim(email), Trim(phone), Trim(color))
  {
    var f, l, e, p, c := Trim(firstName), Trim(lastName), Trim(email), Trim(phone), Trim(color);
    if !IsValidPhone(p) then InvalidPhone else Send(Contact("", f, l, e, p, c))
  }

  /** A new contact without names or a valid email is still sent, where an
      edit with the same values is refused. */
  lemma NewContactChecksLess()
    ensures SaveNewContact("", "", "x", "123", "").Send?
    ensures SaveContact("1", "", "", "x", "123", "") == NameRequired
  {
    assert IsValidPhone("123");
    assert Trim("123") == "123" by { TrimOfClean("123"); }
    assert Trim("") == "";
  }

  // ---------------------------------------------------------------------
  // Pending deletion (deleteContact, confirmDelete)

  /** `contactToDelete` and the delete confirmation popup. */
  class DeleteConfirmation {
    var contactToDelete: Option<string>
    var popupOpen: bool

    constructor ()
      ensures contactToDelete == None && !popupOpen
    {
      contactToDelete, popupOpen := None, false;
    }

    /** deleteContact: the contact becomes the pending one and the popup
        opens. */
    method DeleteContact(id: string)
      modifies this
      ensures contactToDelete == Some(id) && popupOpen
    {
      contactToDelete := Some(id);
      popupOpen := true;
    }

    /** confirmDelete: a pending (truthy, so non-empty) id is handed to the
        final deletion and the slot is emptied; the popup closes either
        way. */
    method ConfirmDelete() returns (deleted: Option<string>)
      modifies this
      ensures !popupOpen
      ensures old(contactToDelete).Some? && old(contactToDelete).value != "" ==>
        deleted == old(contactToDelete) && contactToDelete == None
      ensures old(contactToDelete).None? || old(contactToDelete).value == "" ==>
        deleted == None && contactToDelete == old(contactToDelete)
    {
      deleted := None;
      if contactToDelete.Some? && contactToDelete.value != "" {
        deleted := contactToDelete;
        contactToDelete := None;
      }
      popupOpen := false;
    }
  }
}
