/**
  * The contact store (Sources/parallax/Services/ContactStore.swift): one
  * dictionary from a normalised handle to the contact that owns it, built
  * from the contacts directory, and the resolver that maps a raw message
  * handle (a phone number in any format, or an email address) to a contact.
  *
  * Phone numbers are keyed by their digits alone and email addresses by
  * their lowercase form, in the same dictionary. The directory is an input
  * sequence in enumeration order; asking the user for access, the
  * background task and the hop back to the main actor are not modelled.
  */
module Contacts {
  import opened Wrappers
  import opened Strings

  type Bytes = seq<bv8>

  /** The fields of a `CNContact` that the application fetches and reads. */
  datatype Contact = Contact(
    givenName: string,
    familyName: string,
    phoneNumbers: seq<string>,
    emailAddresses: seq<string>,
    thumbnailImageData: Option<Bytes>)

  /** Handles are stored as their digits alone; one with no digits is not stored. */
  ghost predicate HasPhoneKey(phones: seq<string>, k: string) {
    k != [] && exists p :: p in phones && Digits(p) == k
  }

  /** Emails are stored lowercased; an empty email is not stored. */
  ghost predicate HasEmailKey(emails: seq<string>, k: string) {
    exists e :: e in emails && e != [] && Lower(e) == k
  }

  /** The keys under which the index stores `c`. */
  ghost predicate IsKeyOf(c: Contact, k: string) {
    HasPhoneKey(c.phoneNumbers, k) || HasEmailKey(c.emailAddresses, k)
  }

  /** `m` after storing `c` under each phone number of `phones`, first to last. */
  function PutPhones(m: map<string, Contact>, c: Contact, phones: seq<string>): map<string, Contact>
  {
    if phones == [] then m
    else
      var m' := PutPhones(m, c, phones[..|phones| - 1]);
      var num := Digits(phones[|phones| - 1]);
      if num != [] then m'[num := c] else m'
  }

  /** `m` after storing `c` under each email of `emails`, first to last. */
  function PutEmails(m: map<string, Contact>, c: Contact, emails: seq<string>): map<string, Contact>
  {
    if emails == [] then m
    else
      var m' := PutEmails(m, c, emails[..|emails| - 1]);
      var email := emails[|emails| - 1];
      if email != [] then m'[Lower(email) := c] else m'
  }

  /** One step of the enumeration: the contact's phone numbers, then its emails. */
  function AddContact(m: map<string, Contact>, c: Contact): map<string, Contact> {
    PutEmails(PutPhones(m, c, c.phoneNumbers), c, c.emailAddresses)
  }

  /** The index built from the whole directory, contacts taken in enumeration order. */
  function IndexOf(directory: seq<Contact>): map<string, Contact> {
    if directory == [] then map[]
    else AddContact(IndexOf(directory[..|directory| - 1]), directory[|directory| - 1])
  }

  /** Enumerating one more contact applies one more step to the index built so far. */
  lemma IndexOfAppend(directory: seq<Contact>, c: Contact)
    ensures IndexOf(directory + [c]) == AddContact(IndexOf(directory), c)
  {
    assert (directory + [c])[..|directory|] == directory;
  }

  lemma {:induction false} PutPhonesEffect(m: map<string, Contact>, c: Contact, phones: seq<string>, k: string)
    ensures k in PutPhones(m, c, phones) <==> k in m || HasPhoneKey(phones, k)
    ensures HasPhoneKey(phones, k) ==> PutPhones(m, c, phones)[k] == c
    ensures k in m && !HasPhoneKey(phones, k) ==> PutPhones(m, c, phones)[k] == m[k]
  {
    if phones != [] {
      var init, last := phones[..|phones| - 1], phones[|phones| - 1];
      assert phones == init + [last];
      PutPhonesEffect(m, c, init, k);
      if HasPhoneKey(phones, k) && Digits(last) != k {
        var p :| p in phones && Digits(p) == k;
        assert p in init;
      }
    }
  }

  lemma {:induction false} PutEmailsEffect(m: map<string, Contact>, c: Contact, emails: seq<string>, k: string)
    ensures k in PutEmails(m, c, emails) <==> k in m || HasEmailKey(emails, k)
    ensures HasEmailKey(emails, k) ==> PutEmails(m, c, emails)[k] == c
    ensures k in m && !HasEmailKey(emails, k) ==> PutEmails(m, c, emails)[k] == m[k]
  {
    if emails != [] {
      var init, last := emails[..|emails| - 1], emails[|emails| - 1];
      assert emails == init + [last];
      PutEmailsEffect(m, c, init, k);
      if HasEmailKey(emails, k) && (last == [] || Lower(last) != k) {
        var e :| e in emails && e != [] && Lower(e) == k;
        assert e in init;
      }
    }
  }

  /** Adding a contact stores it under exactly its own keys and leaves every other entry alone. */
  lemma AddContactEffect(m: map<string, Contact>, c: Contact, k: string)
    ensures k in AddContact(m, c) <==> k in m || IsKeyOf(c, k)
    ensures IsKeyOf(c, k) ==> AddContact(m, c)[k] == c
    ensures k in m && !IsKeyOf(c, k) ==> AddContact(m, c)[k] == m[k]
  {
    PutPhonesEffect(m, c, c.phoneNumbers, k);
    PutEmailsEffect(PutPhones(m, c, c.phoneNumbers), c, c.emailAddresses, k);
  }

  /**
    * The index holds exactly the keys of the directory's contacts, and under
    * each key the LAST contact in enumeration order that has that key
    * (last write wins).
    */
  lemma {:induction false} IndexOfIsLastWriter(directory: seq<Contact>, k: string)
    ensures k in IndexOf(directory) <==> exists i :: 0 <= i < |directory| && IsKeyOf(directory[i], k)
    ensures k in IndexOf(directory) ==>
      exists i :: 0 <= i < |directory| && IsKeyOf(directory[i], k) && IndexOf(directory)[k] == directory[i] &&
        forall j :: i < j < |directory| ==> !IsKeyOf(directory[j], k)
  {
    if directory != [] {
      var n := |directory| - 1;
      var init := directory[..n];
      IndexOfIsLastWriter(init, k);
      AddContactEffect(IndexOf(init), directory[n], k);
      if IsKeyOf(directory[n], k) {
        assert IndexOf(directory)[k] == directory[n];
      } else if k in IndexOf(init) {
        var i :| 0 <= i < |init| && IsKeyOf(init[i], k) && IndexOf(init)[k] == init[i] &&
          forall j :: i < j < |init| ==> !IsKeyOf(init[j], k);
        assert directory[i] == init[i];
        assert forall j :: i < j < |directory| ==> !IsKeyOf(directory[j], k) by {
          forall j | i < j < |directory| ensures !IsKeyOf(directory[j], k) {
            if j < n { assert directory[j] == init[j]; }
          }
        }
      } else {
        forall i | 0 <= i < |directory| ensures !IsKeyOf(directory[i], k) {
          if i < n { assert directory[i] == init[i]; }
        }
      }
    }
  }

  /** Every key is a non-empty string of digits or a non-empty lowercase email. */
  lemma IndexKeysAreNormalised(directory: seq<Contact>, k: string)
    requires k in IndexOf(directory)
    ensures k != []
    ensures AllDigits(k) || Lower(k) == k
  {
    IndexOfIsLastWriter(directory, k);
    var i :| 0 <= i < |directory| && IsKeyOf(directory[i], k);
    if HasPhoneKey(directory[i].phoneNumbers, k) {
      var p :| p in directory[i].phoneNumbers && Digits(p) == k;
    } else {
      var e :| e in directory[i].emailAddresses && e != [] && Lower(e) == k;
      LowerIdempotent(e);
    }
  }

  /** Every stored phone number and email of every contact can be found in the index. */
  lemma IndexCoversDirectory(directory: seq<Contact>, i: nat)
    requires i < |directory|
    ensures forall p :: p in directory[i].phoneNumbers && Digits(p) != [] ==> Digits(p) in IndexOf(directory)
    ensures forall e :: e in directory[i].emailAddresses && e != [] ==> Lower(e) in IndexOf(directory)
  {
    forall p | p in directory[i].phoneNumbers && Digits(p) != []
      ensures Digits(p) in IndexOf(directory)
    {
      assert IsKeyOf(directory[i], Digits(p));
      IndexOfIsLastWriter(directory, Digits(p));
    }
    forall e | e in directory[i].emailAddresses && e != []
      ensures Lower(e) in IndexOf(directory)
    {
      assert IsKeyOf(directory[i], Lower(e));
      IndexOfIsLastWriter(directory, Lower(e));
    }
  }

  /** The number of digits from the end that the suffix fallback compares. */
  const SuffixLength: nat := 10

  /**
    * What `contact(for:)` may return for `handle` when the index is `m`.
    * The suffix scan walks a Swift dictionary, whose order is unspecified:
    * any entry whose key ends with the last ten digits is an allowed answer,
    * and no answer is allowed only when no key ends with them.
    */
  ghost predicate Resolves(m: map<string, Contact>, handle: string, r: Option<Contact>) {
    if '@' in handle && Lower(handle) in m then r == Some(m[Lower(handle)])
    else
      var digits := Digits(handle);
      if digits == [] then r == None
      else if digits in m then r == Some(m[digits])
      else if |digits| >= SuffixLength then SuffixMatch(m, Last(digits, SuffixLength), r)
      else r == None
  }

  ghost predicate SuffixMatch(m: map<string, Contact>, suffix: string, r: Option<Contact>) {
    match r
    case None => forall k :: k in m ==> !EndsWith(k, suffix)
    case Some(c) => exists k :: k in m && EndsWith(k, suffix) && m[k] == c
  }

  /** A resolved contact is always one of the index's entries. */
  lemma ResolvedIsIndexed(m: map<string, Contact>, handle: string, r: Option<Contact>)
    requires Resolves(m, handle, r)
    ensures r.Some? ==> r.value in m.Values
  {
    if r.Some? && !('@' in handle && Lower(handle) in m) {
      var digits := Digits(handle);
      if digits !in m {
        var k :| k in m && EndsWith(k, Last(digits, SuffixLength)) && m[k] == r.value;
      }
    }
  }

  /** A handle with no digits and no email hit, the empty handle among them, resolves to nothing. */
  lemma NoDigitsNoEmailIsUnresolved(m: map<string, Contact>, handle: string, r: Option<Contact>)
    requires Resolves(m, handle, r)
    requires !('@' in handle && Lower(handle) in m)
    requires Digits(handle) == []
    ensures r == None
  {
  }

  lemma EmptyHandleIsUnresolved(m: map<string, Contact>, r: Option<Contact>)
    requires Resolves(m, [], r)
    ensures r == None
  {
  }

  /**
    * An email handle that misses is not a failure: its digits are looked up,
    * and an exact digit match wins over any suffix match.
    */
  lemma EmailMissFallsBackToExactDigits(m: map<string, Contact>, handle: string, r: Option<Contact>)
    requires Resolves(m, handle, r)
    requires Lower(handle) !in m
    requires Digits(handle) != [] && Digits(handle) in m
    ensures r == Some(m[Digits(handle)])
  {
  }

  /** Fewer than ten digits and no exact hit: there is no suffix fallback. */
  lemma ShortDigitsHaveNoSuffixFallback(m: map<string, Contact>, handle: string, r: Option<Contact>)
    requires Resolves(m, handle, r)
    requires !('@' in handle && Lower(handle) in m)
    requires Digits(handle) !in m
    requires |Digits(handle)| < SuffixLength
    ensures r == None
  {
  }

  /**
    * When exactly one key ends with the last ten digits, the unspecified
    * scan order does not matter: that key's contact is the answer.
    */
  lemma UniqueSuffixIsDeterministic(m: map<string, Contact>, handle: string, key: string, r: Option<Contact>)
    requires Resolves(m, handle, r)
    requires !('@' in handle && Lower(handle) in m)
    requires Digits(handle) !in m && |Digits(handle)| >= SuffixLength
    requires key in m && EndsWith(key, Last(Digits(handle), SuffixLength))
    requires forall k :: k in m && EndsWith(k, Last(Digits(handle), SuffixLength)) ==> k == key
    ensures r == Some(m[key])
  {
    var suffix := Last(Digits(handle), SuffixLength);
    if r.Some? {
      var k :| k in m && EndsWith(k, suffix) && m[k] == r.value;
    }
  }

  /** The answer exists and is unique except for the choice among several suffix matches. */
  lemma ResolutionIsUniqueOutsideSuffixScan(m: map<string, Contact>, handle: string, r1: Option<Contact>, r2: Option<Contact>)
    requires Resolves(m, handle, r1) && Resolves(m, handle, r2)
    ensures r1.None? <==> r2.None?
    ensures ('@' in handle && Lower(handle) in m) || Digits(handle) in m ==> r1 == r2
  {
    if !('@' in handle && Lower(handle) in m) {
      var digits := Digits(handle);
      if digits != [] && digits !in m && |digits| >= SuffixLength {
        var suffix := Last(digits, SuffixLength);
        if r1.Some? {
          var k :| k in m && EndsWith(k, suffix) && m[k] == r1.value;
        }
        if r2.Some? {
          var k :| k in m && EndsWith(k, suffix) && m[k] == r2.value;
        }
      }
    }
  }

  /**
    * A handle carrying a country code in front of a stored ten-digit number
    * finds that number's contact through the suffix fallback, provided no
    * other key ends with the same ten digits.
    */
  lemma CountryCodePrefixResolves(m: map<string, Contact>, handle: string, countryCode: string, key: string, r: Option<Contact>)
    requires Resolves(m, handle, r)
    requires !('@' in handle && Lower(handle) in m)
    requires key in m && |key| == SuffixLength
    requires countryCode != [] && Digits(handle) == countryCode + key
    requires Digits(handle) !in m
    requires forall k :: k in m && EndsWith(k, key) ==> k == key
    ensures r == Some(m[key])
  {
    var digits := Digits(handle);
    assert Last(digits, SuffixLength) == key by {
      assert digits[|digits| - SuffixLength..] == key;
    }
    UniqueSuffixIsDeterministic(m, handle, key, r);
  }

  /** An email handle is matched whatever its letter case. */
  lemma ExampleEmailIgnoresCase(r: Option<Contact>)
    requires Resolves(IndexOf([Contact("Ann", "", [], ["a@b"], None)]), "A@B", r)
    ensures r == Some(Contact("Ann", "", [], ["a@b"], None))
  {
    var ann := Contact("Ann", "", [], ["a@b"], None);
    ExampleEmailEntry(ann);
    assert Lower("A@B") == "a@b";
  }

  lemma ExampleEmailEntry(ann: Contact)
    requires ann == Contact("Ann", "", [], ["a@b"], None)
    ensures IndexOf([ann]) == map["a@b" := ann]
  {
    IndexOfAppend([], ann);
    assert [] + [ann] == [ann];
    assert PutPhones(map[], ann, ann.phoneNumbers) == map[];
    assert ann.emailAddresses[..0] == [];
    assert PutEmails(map[], ann, ann.emailAddresses) == map[Lower("a@b") := ann];
    assert Lower("a@b") == "a@b";
  }

  /** Fewer than ten digits and no exact key: unresolved, although a key ends with them. */
  lemma ExampleShortDigits(r: Option<Contact>)
    requires Resolves(IndexOf([Contact("Bob", "", ["1234"], [], None)]), "34", r)
    ensures r == None
  {
    var bob := Contact("Bob", "", ["1234"], [], None);
    IndexOfAppend([], bob);
    assert [] + [bob] == [bob];
    assert bob.phoneNumbers[..0] == [];
    DigitsOfDigitString("1234");
    DigitsOfDigitString("34");
    assert PutPhones(map[], bob, bob.phoneNumbers) == map["1234" := bob];
    assert IndexOf([bob]) == map["1234" := bob];
    assert |"34"| != |"1234"|;
  }

  /** Two contacts sharing a number: the later one in enumeration order owns it. */
  lemma ExampleCollision(r: Option<Contact>)
    requires Resolves(IndexOf([Contact("Ann", "", ["123"], [], None),
                               Contact("Bob", "", ["1-23"], [], None)]), "123", r)
    ensures r == Some(Contact("Bob", "", ["1-23"], [], None))
  {
    var d := [Contact("Ann", "", ["123"], [], None), Contact("Bob", "", ["1-23"], [], None)];
    assert d[..1] == [d[0]] && [d[0]][..0] == [];
    assert Digits("123") == "123";
    assert Digits("1-23") == "123";
  }

  /**
    * The shared contact store. `contacts` is the published index; a fetch
    * builds a new dictionary and then replaces the field with it.
    */
  class ContactStore {
    var contacts: map<string, Contact>

    constructor ()
      ensures contacts == map[]
    {
      contacts := map[];
    }

    /**
      * `fetchContacts`: walk the directory in enumeration order, store each
      * contact under the digits of each phone number and then under each
      * lowercased email, and publish the finished dictionary. Nothing of the
      * previous index survives.
      */
    method FetchContacts(directory: seq<Contact>)
      modifies this
      ensures contacts == IndexOf(directory)
    {
      var newMap: map<string, Contact> := map[];
      for i := 0 to |directory|
        invariant newMap == IndexOf(directory[..i])
      {
        var contact := directory[i];
        assert directory[..i + 1][..i] == directory[..i];
        var before := newMap;
        for j := 0 to |contact.phoneNumbers|
          invariant newMap == PutPhones(before, contact, contact.phoneNumbers[..j])
        {
          assert contact.phoneNumbers[..j + 1][..j] == contact.phoneNumbers[..j];
          var num := Digits(contact.phoneNumbers[j]);
          if num != [] {
            newMap := newMap[num := contact];
          }
        }
        assert contact.phoneNumbers[..|contact.phoneNumbers|] == contact.phoneNumbers;
        var afterPhones := newMap;
        for j := 0 to |contact.emailAddresses|
          invariant newMap == PutEmails(afterPhones, contact, contact.emailAddresses[..j])
        {
          assert contact.emailAddresses[..j + 1][..j] == contact.emailAddresses[..j];
          var emailStr := contact.emailAddresses[j];
          if emailStr != [] {
            newMap := newMap[Lower(emailStr) := contact];
          }
        }
        assert contact.emailAddresses[..|contact.emailAddresses|] == contact.emailAddresses;
      }
      assert directory[..|directory|] == directory;
      contacts := newMap;
    }

    /**
      * `contact(for:)`: an email handle is first looked up lowercased; then
      * the handle's digits are looked up exactly; then, with at least ten
      * digits, the dictionary is scanned for a key ending in the last ten.
      * The store is only read.
      */
    method ContactFor(handle: string) returns (r: Option<Contact>)
      ensures Resolves(contacts, handle, r)
      ensures r.Some? ==> r.value in contacts.Values
    {
      if '@' in handle {
        var lowered := Lower(handle);
        if lowered in contacts {
          return Some(contacts[lowered]);
        }
      }
      var digitsOnly := Digits(handle);
      if digitsOnly != [] {
        if digitsOnly in contacts {
          return Some(contacts[digitsOnly]);
        }
        if |digitsOnly| >= SuffixLength {
          var suffix := Last(digitsOnly, SuffixLength);
          var unvisited := contacts.Keys;
          while unvisited != {}
            invariant unvisited <= contacts.Keys
            invariant forall k :: k in contacts && k !in unvisited ==> !EndsWith(k, suffix)
            decreases unvisited
          {
            var key :| key in unvisited;
            if EndsWith(key, suffix) {
              return Some(contacts[key]);
            }
            unvisited := unvisited - {key};
          }
        }
      }
      return None;
    }
  }
}
