/** The contact cleaner of `clearing_excel.js`: phone numbers normalised to the
    Indonesian `62` prefix, student IDs (NIM) turned into campus email
    addresses, and the sheet rows selected and mapped to contacts. */
module Clearing {
  import opened Selection
  import opened Text

  const CountryCode := "62"
  const EmailDomain := "@mhs.dinus.ac.id"
  /** The NIM prefix that is rewritten, and what it becomes. */
  const OldNimPrefix := "A11"
  const NewNimPrefix := "111"

  // ---------------------------------------------------------------------------
  // Phone numbers
  // ---------------------------------------------------------------------------

  /** The country-code rule on a non-empty digit string: kept when it already
      starts with `62`, a trunk `0` replaced by `62`, `62` prepended otherwise
      (the source's separate branch for a leading `8` does the same). */
  function WithCountryCode(digits: string): (r: string)
    requires digits != []
    ensures StartsWith(r, CountryCode)
    ensures AllDigits(digits) ==> AllDigits(r)
  {
    if StartsWith(digits, CountryCode) then digits
    else if StartsWith(digits, "0") then
      assert forall k :: 0 <= k < |digits[1..]| ==> digits[1..][k] == digits[k + 1];
      CountryCode + digits[1..]
    else if StartsWith(digits, "8") then CountryCode + digits
    else CountryCode + digits
  }

  /** `cleanPhone`: either `""`, or a digit string starting with `62`. */
  function CleanPhone(phone: string): (r: string)
    ensures r == "" || (AllDigits(r) && StartsWith(r, CountryCode))
  {
    if phone == "" then ""
    else
      var s := Trim(phone);
      var s := if StartsWith(s, "'") then Trim(s[1..]) else s;
      var digits := KeepDigits(s);
      if digits == "" then ""
      else
        WithCountryCode(digits)
  }

  /** The leading apostrophe and the trimming do not matter: the result is
      determined by the digits of the input alone, `""` when it has none. */
  lemma CleanPhoneByDigits(phone: string)
    ensures CleanPhone(phone) == if KeepDigits(phone) == "" then "" else WithCountryCode(KeepDigits(phone))
  {
    if phone != "" {
      var s := Trim(phone);
      KeepDigitsOfTrim(phone);
      if StartsWith(s, "'") {
        KeepDigitsDropNonDigit(s);
        KeepDigitsOfTrim(s[1..]);
      }
    }
  }

  /** With `d` the digits of the input: no digits give `""`; digits starting
      with `62` are returned unchanged; a leading `0` is replaced by `62`; any
      other digits get `62` prepended. */
  lemma CleanPhoneCases(phone: string)
    ensures var d := KeepDigits(phone);
      && (d == "" ==> CleanPhone(phone) == "")
      && (StartsWith(d, "62") ==> CleanPhone(phone) == d)
      && (d != "" && d[0] == '0' ==> CleanPhone(phone) == "62" + d[1..])
      && (d != "" && !StartsWith(d, "62") && d[0] != '0' ==> CleanPhone(phone) == "62" + d)
  {
    CleanPhoneByDigits(phone);
  }

  /** Cleaning a cleaned number changes nothing. */
  lemma CleanPhoneIdempotent(phone: string)
    ensures CleanPhone(CleanPhone(phone)) == CleanPhone(phone)
  {
    var r := CleanPhone(phone);
    if r != "" {
      KeepDigitsOfDigits(r);
      CleanPhoneByDigits(r);
    }
  }

  // ---------------------------------------------------------------------------
  // NIM to email
  // ---------------------------------------------------------------------------

  /** The `A11` to `111` rewrite of a trimmed NIM. */
  function RewritePrefix(s: string): (r: string)
    ensures |r| == |s|
    ensures StartsWith(s, OldNimPrefix) ==> StartsWith(r, NewNimPrefix)
  {
    if StartsWith(s, OldNimPrefix) then ReplaceFirst(s, OldNimPrefix, NewNimPrefix) else s
  }

  /** A leading `A11` becomes `111`; every other character keeps its position. */
  lemma RewritePrefixPositions(s: string)
    ensures var w := RewritePrefix(s);
      && |w| == |s|
      && (forall i :: 3 <= i < |s| ==> w[i] == s[i])
      && (StartsWith(s, "A11") ==> w[..3] == "111")
      && (!StartsWith(s, "A11") ==> w == s)
  {
  }

  /** `nimToEmail`: either `""`, or a dot-free, non-empty local part followed by
      `@mhs.dinus.ac.id`. */
  function NimToEmail(nim: string): (r: string)
    ensures r == "" || (
      && |r| > |EmailDomain|
      && r[|r| - |EmailDomain|..] == EmailDomain
      && '.' !in r[..|r| - |EmailDomain|])
  {
    if nim == "" then ""
    else
      var clean := RemoveDots(RewritePrefix(Trim(nim)));
      if clean != "" then
        assert (clean + EmailDomain)[..|clean|] == clean;
        clean + EmailDomain
      else ""
  }

  /** With `w` the trimmed NIM after the prefix rewrite (see
      `RewritePrefixPositions`): the address is empty exactly when `w` is all
      dots, and otherwise its local part is the non-`.` characters of `w`, in
      order, listed by their ascending positions `idx`. */
  lemma NimToEmailLocalPart(nim: string)
    ensures var w := RewritePrefix(Trim(nim));
      var r := NimToEmail(nim);
      var idx := Kept(w, NotDot);
      && (r == "" <==> forall i :: 0 <= i < |w| ==> w[i] == '.')
      && (r != "" ==>
            var local := r[..|r| - |EmailDomain|];
            && |local| == |idx|
            && (forall k :: 0 <= k < |idx| ==> idx[k] < |w| && local[k] == w[idx[k]])
            && (forall k, l :: 0 <= k < l < |idx| ==> idx[k] < idx[l])
            && (forall i :: 0 <= i < |w| ==> (w[i] != '.' <==> i in idx)))
  {
    var w := RewritePrefix(Trim(nim));
    if nim == "" {
      assert Trim(nim) == "";
    }
    RemoveDotsExact(w);
    if forall i :: 0 <= i < |w| ==> w[i] == '.' {
      FilterDropsAll(w, NotDot);
    }
    var r := NimToEmail(nim);
    if r != "" {
      assert r[..|r| - |EmailDomain|] == RemoveDots(w);
    }
  }

  /** Surrounding whitespace never matters: an ID and its trim map to the same
      address. */
  lemma NimToEmailTrim(nim: string)
    ensures NimToEmail(Trim(nim)) == NimToEmail(nim)
  {
    TrimIdempotent(nim);
  }

  // ---------------------------------------------------------------------------
  // Row selection
  // ---------------------------------------------------------------------------

  /** One output row: NIM, address, name and cleaned phone. */
  datatype Contact = Contact(nim: string, email: string, nama: string, cleanPhone: string)

  /** `row[j] || ""`: a cell past the end of the row reads as `""`. */
  function Cell(row: seq<string>, j: nat): string {
    if j < |row| then row[j] else ""
  }

  /** Columns B, C and D are not all empty. */
  predicate HasContact(row: seq<string>) {
    Cell(row, 1) != "" || Cell(row, 2) != "" || Cell(row, 3) != ""
  }

  /** The contact built from a row's columns B (NIM), C (name) and D (phone). */
  function ToContact(row: seq<string>): (c: Contact)
    ensures c.nim == Cell(row, 1) && c.nama == Cell(row, 2)
    ensures c.email == NimToEmail(c.nim) && c.cleanPhone == CleanPhone(Cell(row, 3))
    ensures c.email == "" || (|c.email| > |EmailDomain| && c.email[|c.email| - |EmailDomain|..] == EmailDomain)
    ensures c.cleanPhone == "" || (AllDigits(c.cleanPhone) && StartsWith(c.cleanPhone, CountryCode))
  {
    Contact(Cell(row, 1), NimToEmail(Cell(row, 1)), Cell(row, 2), CleanPhone(Cell(row, 3)))
  }

  /** The main loop: row 0 is the header and is skipped; every later row with
      something in columns B, C or D yields one contact, in sheet order.
      `picked` holds the sheet row number each contact came from. */
  method CleanRows(rows: seq<seq<string>>) returns (contacts: seq<Contact>, picked: seq<nat>)
    ensures |picked| == |contacts|
    ensures forall k :: 0 <= k < |picked| ==> 1 <= picked[k] < |rows| && contacts[k] == ToContact(rows[picked[k]])
    ensures forall k, l :: 0 <= k < l < |picked| ==> picked[k] < picked[l]
    ensures forall i :: 1 <= i < |rows| ==> (HasContact(rows[i]) <==> i in picked)
  {
    contacts, picked := SelectFrom(rows, 1, HasContact, ToContact);
  }
}
