/** The logic of the desktop user interface (ui/ui.go): the password
    strength meter, the rules the account and entry dialogs apply to the
    account list and to the records of the open vault, and the handlers
    that apply them to the application state. Widgets, dialogs and
    layout are not modelled: a dialog that shows an error becomes a
    returned `UiError`. */
module Ui {
  import opened Wrappers
  import opened Base
  import opened Text
  import opened Seqs
  import opened Entry
  import opened FileStore
  import opened Storage
  import Crypto

  // ---------------------------------------------------------------------
  // Password strength

  datatype Strength = Weak | Medium | Strong

  function Rank(s: Strength): nat {
    match s
    case Weak => 0
    case Medium => 1
    case Strong => 2
  }

  /** calculatePasswordStrength: by Go's `len`, the byte length of the
      UTF-8 form, under 6 is weak, under 10 medium, else strong. */
  function PasswordStrength(password: string): (s: Strength)
    ensures s == Weak <==> ByteLength(password) < 6
    ensures s == Medium <==> 6 <= ByteLength(password) < 10
    ensures s == Strong <==> 10 <= ByteLength(password)
  {
    if ByteLength(password) < 6 then Weak
    else if ByteLength(password) < 10 then Medium
    else Strong
  }

  /** Typing more characters never lowers the strength shown. */
  lemma StrengthNeverDrops(password: string, more: string)
    ensures Rank(PasswordStrength(password)) <= Rank(PasswordStrength(password + more))
  {
    Utf8EncodeConcat(password, more);
  }

  /** The meter counts bytes, not characters: three two-byte letters make a
      medium password. */
  lemma StrengthCountsBytes()
    ensures |"\U{E9}\U{E9}\U{E9}"| == 3
    ensures PasswordStrength("\U{E9}\U{E9}\U{E9}") == Medium
  {
    var s := "\U{E9}\U{E9}\U{E9}";
    assert s == ['\U{E9}'] + ['\U{E9}'] + ['\U{E9}'];
    assert |Utf8Char('\U{E9}')| == 2;
    Utf8EncodeConcat(['\U{E9}'] + ['\U{E9}'], ['\U{E9}']);
    Utf8EncodeConcat(['\U{E9}'], ['\U{E9}']);
    assert Utf8Encode(['\U{E9}']) == Utf8Char('\U{E9}') + Utf8Encode([]);
  }

  // ---------------------------------------------------------------------
  // Errors the dialogs show

  datatype UiError =
    | EmptyAccountName       // "Account name cannot be empty"
    | PasswordTooShort       // "Password must be at least 8 characters long"
    | PasswordMismatch       // "Passwords do not match"
    | AccountExists          // "Account already exists"
    | EmptyMasterPassword    // "Master password cannot be empty"
    | MissingEntryFields     // "Title, Username, and Password cannot be empty"
    | StorageFailed(cause: Error)

  // ---------------------------------------------------------------------
  // The account list

  /** The shortest master password a new account accepts, in bytes. */
  const MinMasterPasswordLength: nat := 8

  /** The checks of the create-account dialog, in the order they are made;
      None when the account may be created. */
  function CheckNewAccount(accounts: seq<string>, name: string, password: string, confirm: string)
    : (r: Option<UiError>)
    ensures name == "" ==> r == Some(EmptyAccountName)
    ensures name != "" && ByteLength(password) < MinMasterPasswordLength ==> r == Some(PasswordTooShort)
    ensures name != "" && ByteLength(password) >= MinMasterPasswordLength && password != confirm
            ==> r == Some(PasswordMismatch)
    ensures (name != "" && ByteLength(password) >= MinMasterPasswordLength && password == confirm
             && name in accounts) ==> r == Some(AccountExists)
    ensures r.None? <==>
            name != "" && ByteLength(password) >= MinMasterPasswordLength && password == confirm
            && name !in accounts
  {
    if name == "" then Some(EmptyAccountName)
    else if ByteLength(password) < MinMasterPasswordLength then Some(PasswordTooShort)
    else if password != confirm then Some(PasswordMismatch)
    else if name in accounts then Some(AccountExists)
    else None
  }

  /** An account list built only by the create dialog never holds a name
      twice. */
  lemma AddKeepsNamesDistinct(accounts: seq<string>, name: string, password: string, confirm: string)
    requires Distinct(accounts)
    requires CheckNewAccount(accounts, name, password, confirm).None?
    ensures Distinct(accounts + [name])
  {
    var r := accounts + [name];
    forall i, j | 0 <= i < j < |r| ensures r[i] != r[j] {
      if j == |accounts| {
        assert r[i] == accounts[i];
        assert accounts[i] in accounts;
      }
    }
  }

  function NotNamed(name: string): string -> bool {
    a => a != name
  }

  function Named(name: string): string -> bool {
    a => a == name
  }

  /** The account list after deleting `name`: the names other than `name`,
      none of them new. */
  function WithoutName(accounts: seq<string>, name: string): (r: seq<string>)
    ensures |r| <= |accounts|
    ensures forall i :: 0 <= i < |r| ==> r[i] != name && r[i] in accounts
    ensures forall i :: 0 <= i < |accounts| && accounts[i] != name ==> accounts[i] in r
  {
    Filter(NotNamed(name), accounts)
  }

  /** Deleting an account removes every occurrence of the name, keeps every
      other name, and keeps the list free of repetitions. */
  lemma DeleteAccountSpec(accounts: seq<string>, name: string)
    ensures name !in WithoutName(accounts, name)
    ensures forall a :: a != name ==> (a in WithoutName(accounts, name) <==> a in accounts)
    ensures |WithoutName(accounts, name)| + |Filter(Named(name), accounts)| == |accounts|
    ensures Distinct(accounts) ==> Distinct(WithoutName(accounts, name))
  {
    var r := WithoutName(accounts, name);
    forall a | a != name && a in accounts ensures a in r {
      var i :| 0 <= i < |accounts| && accounts[i] == a;
    }
    FilterPartition(NotNamed(name), Named(name), accounts);
    if Distinct(accounts) {
      FilterDistinct(NotNamed(name), accounts);
    }
  }

  /** The duplicate-name loop of the create dialog. */
  method AccountIsListed(accounts: seq<string>, name: string) returns (found: bool)
    ensures found <==> name in accounts
  {
    for i := 0 to |accounts|
      invariant name !in accounts[..i]
    {
      if accounts[i] == name {
        return true;
      }
      assert accounts[..i + 1] == accounts[..i] + [accounts[i]];
    }
    assert accounts[..|accounts|] == accounts;
    return false;
  }

  /** The loop of the delete-account confirmation that copies every other
      name. */
  method CopyOtherNames(accounts: seq<string>, name: string) returns (kept: seq<string>)
    ensures kept == WithoutName(accounts, name)
  {
    kept := [];
    for i := 0 to |accounts|
      invariant kept == Filter(NotNamed(name), accounts[..i])
    {
      FilterSnoc(NotNamed(name), accounts, i);
      if accounts[i] != name {
        kept := kept + [accounts[i]];
      }
    }
    assert accounts[..|accounts|] == accounts;
  }

  // ---------------------------------------------------------------------
  // The records of the open vault

  /** The tags field as the entry form reads it: split at every comma,
      each piece trimmed of white space. */
  function ParsedTags(text: string): (tags: seq<string>)
    ensures |tags| == Occurrences(text, ',') + 1
  {
    MapSeq(TrimSpace, Split(text, ','))
  }

  /** A tag as the form stores it: no comma, no white space at either end. */
  predicate WellFormedTag(t: string) {
    ',' !in t && (t == [] || (!IsSpace(t[0]) && !IsSpace(t[|t| - 1])))
  }

  /** A comma-free piece, trimmed, is a well-formed tag. */
  lemma TrimmedPieceShape(piece: string)
    requires ',' !in piece
    ensures WellFormedTag(TrimSpace(piece))
  {
    TrimSpaceWithin(piece, ',');
  }

  /** Each tag is a comma-free piece of the text with no white space at
      either end. */
  lemma ParsedTagsShape(text: string)
    ensures forall i :: 0 <= i < |ParsedTags(text)| ==> WellFormedTag(ParsedTags(text)[i])
  {
    var pieces := Split(text, ',');
    var tags := ParsedTags(text);
    forall i | 0 <= i < |tags| ensures WellFormedTag(tags[i]) {
      assert tags[i] == TrimSpace(pieces[i]);
      TrimmedPieceShape(pieces[i]);
    }
  }

  /** An empty tags field gives one empty tag, not none, so a record saved
      from the form always has its `tags` key written. */
  lemma EmptyTagsFieldGivesOneTag()
    ensures ParsedTags("") == [""]
  {
    assert Split("", ',') == [""];
    assert TrimSpace("") == "";
    assert MapSeq(TrimSpace, [""])[0] == "";
  }

  /** The loop of the save handler that trims each tag in place. */
  method ParseTags(text: string) returns (tags: seq<string>)
    ensures tags == ParsedTags(text)
  {
    tags := Split(text, ',');
    ghost var pieces := tags;
    for i := 0 to |tags|
      invariant |tags| == |pieces|
      invariant forall k :: 0 <= k < i ==> tags[k] == TrimSpace(pieces[k])
      invariant forall k :: i <= k < |tags| ==> tags[k] == pieces[k]
    {
      tags := tags[i := TrimSpace(tags[i])];
    }
    assert tags == MapSeq(TrimSpace, pieces);
  }

  /** The record an edit saves: the edited fields are replaced, the
      identifier, URL and creation time kept, the update time is `now`. */
  function EditedEntry(current: PasswordEntry, title: string, username: string, password: string,
                       notes: string, tags: seq<string>, now: Time): (e: PasswordEntry)
    ensures e.id == current.id && e.url == current.url && e.createdAt == current.createdAt
    ensures e.title == title && e.username == username && e.password == password
    ensures e.notes == notes && e.tags == tags && e.updatedAt == now
  {
    current.(title := title, username := username, password := password,
             notes := notes, tags := tags, updatedAt := now)
  }

  function ReplaceIfSameId(updated: PasswordEntry): PasswordEntry -> PasswordEntry {
    (e: PasswordEntry) => if e.id == updated.id then updated else e
  }

  /** The list after an edit: every record with the edited identifier is
      replaced by `updated`; the others stay where they were. */
  function EditedList(entries: seq<PasswordEntry>, updated: PasswordEntry): (r: seq<PasswordEntry>)
    ensures |r| == |entries|
    ensures forall i :: 0 <= i < |entries| ==> r[i] == (if entries[i].id == updated.id then updated else entries[i])
  {
    MapSeq(ReplaceIfSameId(updated), entries)
  }

  lemma EditedListSpec(entries: seq<PasswordEntry>, updated: PasswordEntry)
    ensures |EditedList(entries, updated)| == |entries|
    ensures forall i :: 0 <= i < |entries| && entries[i].id == updated.id ==>
              EditedList(entries, updated)[i] == updated
    ensures forall i :: 0 <= i < |entries| && entries[i].id != updated.id ==>
              EditedList(entries, updated)[i] == entries[i]
    ensures (exists i :: 0 <= i < |entries| && entries[i].id == updated.id) ==>
              updated in EditedList(entries, updated)
  {
  }

  /** The list the entry form saves: an edit replaces the record by
      identifier, an addition appends a new record (empty URL) at the end. */
  function FormList(view: seq<PasswordEntry>, editing: Option<PasswordEntry>,
                    title: string, username: string, password: string, notes: string,
                    tags: seq<string>, newId: string, now1: Time, now2: Time)
    : (r: seq<PasswordEntry>)
    ensures editing.Some? ==> |r| == |view|
    ensures editing.None? ==>
              && |r| == |view| + 1 && r[..|view|] == view
              && r[|view|] == NewPasswordEntry(newId, title, username, password, "", notes, tags, now1, now2)
  {
    if editing.Some? then
      EditedList(view, EditedEntry(editing.value, title, username, password, notes, tags, now1))
    else
      view + [NewPasswordEntry(newId, title, username, password, "", notes, tags, now1, now2)]
  }

  /** The edit loop of the save handler. */
  method ReplaceById(entries: seq<PasswordEntry>, updated: PasswordEntry) returns (r: seq<PasswordEntry>)
    ensures r == EditedList(entries, updated)
  {
    r := [];
    for i := 0 to |entries|
      invariant |r| == i
      invariant forall k :: 0 <= k < i ==> r[k] == ReplaceIfSameId(updated)(entries[k])
    {
      if entries[i].id == updated.id {
        r := r + [updated];
      } else {
        r := r + [entries[i]];
      }
    }
  }

  function OtherId(id: string): PasswordEntry -> bool {
    (e: PasswordEntry) => e.id != id
  }

  /** The list after deleting the record `id`: the records with another
      identifier, none of them new. */
  function WithoutEntry(entries: seq<PasswordEntry>, id: string): (r: seq<PasswordEntry>)
    ensures |r| <= |entries|
    ensures forall i :: 0 <= i < |r| ==> r[i].id != id && r[i] in entries
    ensures forall i :: 0 <= i < |entries| && entries[i].id != id ==> entries[i] in r
  {
    Filter(OtherId(id), entries)
  }

  /** Deleting keeps exactly the records with another identifier, in their
      order; deleting twice is deleting once. */
  lemma DeleteEntrySpec(entries: seq<PasswordEntry>, id: string)
    ensures forall e :: e in WithoutEntry(entries, id) <==> e in entries && e.id != id
    ensures WithoutEntry(WithoutEntry(entries, id), id) == WithoutEntry(entries, id)
    ensures (forall i :: 0 <= i < |entries| ==> entries[i].id != id) ==> WithoutEntry(entries, id) == entries
  {
    var r := WithoutEntry(entries, id);
    forall e | e in r ensures e in entries && e.id != id {
      var i :| 0 <= i < |r| && r[i] == e;
    }
    forall e | e in entries && e.id != id ensures e in r {
      var i :| 0 <= i < |entries| && entries[i] == e;
    }
    FilterIdempotent(OtherId(id), entries);
    if forall i :: 0 <= i < |entries| ==> entries[i].id != id {
      FilterKeepsAll(OtherId(id), entries);
    }
  }

  /** The loop of deleteEntry and of the delete confirmation. */
  method CopyOtherEntries(entries: seq<PasswordEntry>, id: string) returns (r: seq<PasswordEntry>)
    ensures r == WithoutEntry(entries, id)
  {
    r := [];
    for i := 0 to |entries|
      invariant r == Filter(OtherId(id), entries[..i])
    {
      FilterSnoc(OtherId(id), entries, i);
      if entries[i].id != id {
        r := r + [entries[i]];
      }
    }
    assert entries[..|entries|] == entries;
  }

  // ---------------------------------------------------------------------
  // Search

  /** Whether a record matches an already lower-cased search term: its
      lower-cased title, username or notes contain it. */
  function Matches(lowered: string): (m: PasswordEntry -> bool)
    ensures lowered == [] ==> forall e :: m(e)
    ensures forall e :: m(e) ==> |lowered| <= |ToLower(e.title)| || |lowered| <= |ToLower(e.username)|
                                 || |lowered| <= |ToLower(e.notes)|
  {
    (e: PasswordEntry) => Contains(ToLower(e.title), lowered) || Contains(ToLower(e.username), lowered)
         || Contains(ToLower(e.notes), lowered)
  }

  /** The records refreshEntryList shows for a term: all of them for the
      empty term, otherwise some of them, none new. */
  function SearchView(loaded: seq<PasswordEntry>, term: string): (r: seq<PasswordEntry>)
    ensures term == "" ==> r == loaded
    ensures |r| <= |loaded|
    ensures forall i :: 0 <= i < |r| ==> r[i] in loaded
  {
    if term == "" then loaded else Filter(Matches(ToLower(term)), loaded)
  }

  /** An empty term shows every record; any other term shows, in their
      order, exactly the records one of whose three fields contains the
      term, letters compared without case. */
  lemma SearchViewSpec(loaded: seq<PasswordEntry>, term: string)
    ensures term == "" ==> SearchView(loaded, term) == loaded
    ensures term != "" ==>
              forall e :: e in SearchView(loaded, term) <==> e in loaded && Matches(ToLower(term))(e)
    ensures term != "" ==>
              SearchView(SearchView(loaded, term), term) == SearchView(loaded, term)
  {
    if term != "" {
      var t := ToLower(term);
      var r := SearchView(loaded, term);
      forall e | e in r ensures e in loaded && Matches(t)(e) {
        var i :| 0 <= i < |r| && r[i] == e;
      }
      forall e | e in loaded && Matches(t)(e) ensures e in r {
        var i :| 0 <= i < |loaded| && loaded[i] == e;
      }
      FilterIdempotent(Matches(t), loaded);
    }
  }

  /** The filter loop of refreshEntryList, over an already lower-cased
      term. */
  method SearchEntries(entries: seq<PasswordEntry>, lowered: string) returns (found: seq<PasswordEntry>)
    ensures found == Filter(Matches(lowered), entries)
  {
    found := [];
    for i := 0 to |entries|
      invariant found == Filter(Matches(lowered), entries[..i])
    {
      FilterSnoc(Matches(lowered), entries, i);
      var e := entries[i];
      if Contains(ToLower(e.title), lowered) || Contains(ToLower(e.username), lowered)
         || Contains(ToLower(e.notes), lowered) {
        found := found + [e];
      }
    }
    assert entries[..|entries|] == entries;
  }

  /** The part of the save handler that builds the new list: the tag
      loop, then the edit loop or an append. (The handler parses the tags
      before its empty-field check; parsing has no effect, so the order is
      immaterial.) */
  method BuildFormList(view: seq<PasswordEntry>, editing: Option<PasswordEntry>,
                       title: string, username: string, password: string, notes: string,
                       tagsText: string, newId: string, now1: Time, now2: Time)
    returns (r: seq<PasswordEntry>)
    ensures r == FormList(view, editing, title, username, password, notes, ParsedTags(tagsText), newId, now1, now2)
  {
    var tags := ParseTags(tagsText);
    if editing.Some? {
      var updated := EditedEntry(editing.value, title, username, password, notes, tags, now1);
      r := ReplaceById(view, updated);
    } else {
      r := view + [NewPasswordEntry(newId, title, username, password, "", notes, tags, now1, now2)];
    }
  }

  // ---------------------------------------------------------------------
  // Editing while a search is shown

  /** A term longer than a text is not contained in it. */
  lemma NotContainedWhenLonger(s: string, sub: string)
    requires |sub| > |s|
    ensures !Contains(s, sub)
  {
    ContainsIff(s, sub);
  }

  /** Two records of one vault: one titled "mail", one titled "web". */
  const MailRecord := PasswordEntry("1", "mail", "me", "pw1", "", "", [""], Time(0), Time(0))
  const WebRecord := PasswordEntry("2", "web", "me", "pw2", "", "", [""], Time(0), Time(0))

  /** Searching that vault for "mail" shows the first record only. */
  lemma MailSearchShowsOne()
    ensures SearchView([MailRecord, WebRecord], "mail") == [MailRecord]
  {
    var t := ToLower("mail");
    assert t == "mail";
    assert Contains(ToLower(MailRecord.title), t);
    assert ToLower("web") == "web" && ToLower("me") == "me" && ToLower("") == "";
    NotContainedWhenLonger("web", t);
    NotContainedWhenLonger("me", t);
    NotContainedWhenLonger("", t);
    assert !Matches(t)(WebRecord);
    assert Filter(Matches(t), [WebRecord]) == [];
    assert [MailRecord, WebRecord][1..] == [WebRecord];
  }

  /** As written, the save and delete handlers start from the shown list,
      which after a search is the filtered view: saving an edit of the one
      record shown, or deleting it, writes a vault without the records the
      search hid. */
  lemma SearchThenSaveDropsHiddenRecords()
    ensures var view := SearchView([MailRecord, WebRecord], "mail");
            && view == [MailRecord]
            && WebRecord !in FormList(view, Some(MailRecord), "mail", "me", "pw3", "", [""], "3", Time(1), Time(1))
            && WebRecord !in WithoutEntry(view, "1")
  {
    MailSearchShowsOne();
    var view := [MailRecord];
    var saved := FormList(view, Some(MailRecord), "mail", "me", "pw3", "", [""], "3", Time(1), Time(1));
    assert |saved| == 1 && saved[0].id == "1";
    assert Filter(OtherId("1"), view) == [];
  }

  /** The evidently intended rule: an edit, an addition or a deletion
      applied to the full vault (the original list) keeps every other record
      of it, whatever search is shown. */
  lemma VaultEditsKeepOtherRecords(original: seq<PasswordEntry>, editing: Option<PasswordEntry>,
                                   title: string, username: string, password: string, notes: string,
                                   tags: seq<string>, newId: string, now1: Time, now2: Time, deleted: string)
    ensures forall e :: e in original && (editing.None? || e.id != editing.value.id) ==>
              e in FormList(original, editing, title, username, password, notes, tags, newId, now1, now2)
    ensures forall e :: e in original && e.id != deleted ==> e in WithoutEntry(original, deleted)
  {
    var r := FormList(original, editing, title, username, password, notes, tags, newId, now1, now2);
    forall e | e in original && (editing.None? || e.id != editing.value.id) ensures e in r {
      var i :| 0 <= i < |original| && original[i] == e;
      if editing.Some? {
        assert r[i] == e;
      } else {
        assert r[..|original|][i] == e;
      }
    }
    DeleteEntrySpec(original, deleted);
  }

  // ---------------------------------------------------------------------
  // The application state and the handlers

  /** The state the handlers share (UIState without its widgets), with the
      disk, the random stream and the abstract primitives it works with. */
  class App {
    var accounts: seq<string>
    var currentAccount: string
    var entries: seq<PasswordEntry>
    var masterPassword: string
    var originalEntries: seq<PasswordEntry>
    const disk: Disk
    const rng: Crypto.Entropy
    const prims: Crypto.Primitives
    const codec: Codec

    /** The primitives behave as their standards promise. */
    ghost predicate Valid() {
      prims.Valid() && codec.Valid()
    }

    /** RunUI: a fresh state whose account list is what LoadAccounts
        returns (nil being an empty list). */
    constructor (disk: Disk, rng: Crypto.Entropy, prims: Crypto.Primitives, codec: Codec)
      modifies disk
      ensures this.disk == disk && this.rng == rng && this.prims == prims && this.codec == codec
      ensures accounts == LoadAccountsResult(old(disk.State()), codec).GetOr([])
      ensures currentAccount == "" && entries == [] && masterPassword == "" && originalEntries == []
      ensures disk.State() == DirStep(old(disk.State()))
    {
      var loaded := LoadAccounts(disk, codec);
      this.disk := disk;
      this.rng := rng;
      this.prims := prims;
      this.codec := codec;
      accounts := loaded.GetOr([]);
      currentAccount := "";
      entries := [];
      masterPassword := "";
      originalEntries := [];
    }

    /** The confirm handler of the create-account dialog. The name is
        appended to the list before the registry is saved and stays there
        when that save fails; then the new vault is saved empty. */
    method ConfirmAddAccount(name: string, password: string, confirm: string) returns (err: Option<UiError>)
      requires Valid()
      modifies this, disk, rng
      ensures currentAccount == old(currentAccount) && entries == old(entries)
      ensures masterPassword == old(masterPassword) && originalEntries == old(originalEntries)
      ensures CheckNewAccount(old(accounts), name, password, confirm).Some? ==>
                && err == CheckNewAccount(old(accounts), name, password, confirm)
                && accounts == old(accounts)
                && disk.State() == old(disk.State()) && rng.tape == old(rng.tape)
      ensures CheckNewAccount(old(accounts), name, password, confirm).None? ==>
                var names := old(accounts) + [name];
                var s1 := SaveAccountsOutcome(old(disk.State()), codec, names);
                var s2 := SaveOutcome(s1.disk, old(rng.tape), prims, codec, name, password, []);
                && accounts == names
                && (s1.err.Some? ==>
                      err == Some(StorageFailed(s1.err.value)) && disk.State() == s1.disk
                      && rng.tape == old(rng.tape))
                && (s1.err.None? && s2.err.Some? ==>
                      err == Some(StorageFailed(s2.err.value)) && disk.State() == s2.disk
                      && rng.tape == s2.rest)
                && (s1.err.None? && s2.err.None? ==>
                      && err == None && disk.State() == s2.disk && rng.tape == s2.rest
                      && LoadAccountsResult(disk.State(), codec) == Some(names)
                      && LoadResult(disk.State(), prims, codec, name, password) == Success([]))
    {
      if name == "" {
        return Some(EmptyAccountName);
      }
      if ByteLength(password) < MinMasterPasswordLength {
        return Some(PasswordTooShort);
      }
      if password != confirm {
        return Some(PasswordMismatch);
      }
      var listed := AccountIsListed(accounts, name);
      if listed {
        return Some(AccountExists);
      }
      ghost var st0 := disk.State();
      ghost var tape0 := rng.tape;
      accounts := accounts + [name];
      var e1 := SaveAccounts(disk, codec, accounts);
      if e1.Some? {
        return Some(StorageFailed(e1.value));
      }
      ghost var st1 := disk.State();
      var e2 := SaveEncryptedData(disk, rng, prims, codec, name, password, []);
      if e2.Some? {
        return Some(StorageFailed(e2.value));
      }
      AccountsRoundTrip(st0, codec, accounts);
      VaultSaveKeepsRegistryLoad(st1, tape0, prims, codec, name, password, []);
      SaveThenLoad(st1, tape0, prims, codec, name, password, []);
      return None;
    }

    /** The confirm handler of the delete-account dialog. The registry is
        saved and its error ignored; the vault file stays on disk; the open
        account is closed only when it is the deleted one. */
    method ConfirmDeleteAccount(name: string)
      modifies this, disk
      ensures accounts == WithoutName(old(accounts), name)
      ensures disk.State() == SaveAccountsOutcome(old(disk.State()), codec, WithoutName(old(accounts), name)).disk
      ensures old(currentAccount) == name ==> currentAccount == "" && entries == []
      ensures old(currentAccount) != name ==> currentAccount == old(currentAccount) && entries == old(entries)
      ensures masterPassword == old(masterPassword) && originalEntries == old(originalEntries)
    {
      var kept := CopyOtherNames(accounts, name);
      accounts := kept;
      var _ := SaveAccounts(disk, codec, accounts);
      if currentAccount == name {
        entries := [];
        currentAccount := "";
      }
    }

    /** Opening the login screen of an account makes it the current one. */
    method ShowLoginScreen(accountName: string)
      modifies this
      ensures currentAccount == accountName
      ensures accounts == old(accounts) && entries == old(entries)
      ensures masterPassword == old(masterPassword) && originalEntries == old(originalEntries)
    {
      currentAccount := accountName;
    }

    /** The back button of the dashboard. */
    method BackToAccounts()
      modifies this
      ensures currentAccount == "" && entries == []
      ensures accounts == old(accounts)
      ensures masterPassword == old(masterPassword) && originalEntries == old(originalEntries)
    {
      currentAccount := "";
      entries := [];
    }

    /** showDashboard: reload the vault; on success both lists are set to
        it and refreshEntryList reloads it once more with an empty term,
        which sees the same records; on failure nothing changes. */
    method ShowDashboard() returns (err: Option<UiError>)
      modifies this, disk
      ensures var loaded := LoadResult(old(disk.State()), prims, codec, currentAccount, masterPassword);
              && disk.State() == DirStep(old(disk.State()))
              && (loaded.Failure? ==>
                    err == Some(StorageFailed(loaded.error))
                    && entries == old(entries) && originalEntries == old(originalEntries))
              && (loaded.Success? ==>
                    err == None && entries == loaded.value && originalEntries == loaded.value)
      ensures accounts == old(accounts) && currentAccount == old(currentAccount)
      ensures masterPassword == old(masterPassword)
    {
      var loaded := LoadEncryptedData(disk, prims, codec, currentAccount, masterPassword);
      if loaded.Failure? {
        return Some(StorageFailed(loaded.error));
      }
      entries := loaded.value;
      originalEntries := loaded.value;
      LoadIsRepeatable(old(disk.State()), prims, codec, currentAccount, masterPassword);
      var _ := RefreshEntryList("");
      return None;
    }

    /** The login button (the load runs synchronously here). An empty
        password is refused; a failed load leaves the state as it was; a
        successful one keeps the password and shows the dashboard, whose
        second load sees the same records. */
    method SubmitLogin(password: string) returns (err: Option<UiError>)
      modifies this, disk
      ensures password == "" ==>
                err == Some(EmptyMasterPassword) && disk.State() == old(disk.State())
                && entries == old(entries) && originalEntries == old(originalEntries)
                && masterPassword == old(masterPassword)
      ensures password != "" ==>
                var loaded := LoadResult(old(disk.State()), prims, codec, currentAccount, password);
                && disk.State() == DirStep(old(disk.State()))
                && (loaded.Failure? ==>
                      err == Some(StorageFailed(loaded.error))
                      && entries == old(entries) && originalEntries == old(originalEntries)
                      && masterPassword == old(masterPassword))
                && (loaded.Success? ==>
                      err == None && masterPassword == password
                      && entries == loaded.value && originalEntries == loaded.value)
      ensures accounts == old(accounts) && currentAccount == old(currentAccount)
    {
      if password == "" {
        return Some(EmptyMasterPassword);
      }
      ghost var st0 := disk.State();
      var loaded := LoadEncryptedData(disk, prims, codec, currentAccount, password);
      if loaded.Failure? {
        return Some(StorageFailed(loaded.error));
      }
      masterPassword := password;
      entries := loaded.value;
      LoadIsRepeatable(st0, prims, codec, currentAccount, password);
      err := ShowDashboard();
    }

    /** refreshEntryList: reload the vault; the full list becomes the
        original list and the shown list is the search view of it. */
    method RefreshEntryList(searchTerm: string) returns (err: Option<UiError>)
      modifies this, disk
      ensures var loaded := LoadResult(old(disk.State()), prims, codec, currentAccount, masterPassword);
              && disk.State() == DirStep(old(disk.State()))
              && (loaded.Failure? ==>
                    err == Some(StorageFailed(loaded.error))
                    && entries == old(entries) && originalEntries == old(originalEntries))
              && (loaded.Success? ==>
                    err == None && originalEntries == loaded.value
                    && entries == SearchView(loaded.value, searchTerm))
      ensures accounts == old(accounts) && currentAccount == old(currentAccount)
      ensures masterPassword == old(masterPassword)
    {
      var loaded := LoadEncryptedData(disk, prims, codec, currentAccount, masterPassword);
      if loaded.Failure? {
        return Some(StorageFailed(loaded.error));
      }
      entries := loaded.value;
      originalEntries := loaded.value;
      if searchTerm != "" {
        var lowered := ToLower(searchTerm);
        var filtered := SearchEntries(originalEntries, lowered);
        entries := filtered;
      }
      return None;
    }

    /** The save button of the entry form. `editing` is the record being
        edited (None when adding); `newId`, `now1` and `now2` are the UUID
        and the clock readings the handler would take. The shown list is
        changed before the save and stays changed when the save fails; after
        a successful save the dashboard reloads exactly the saved list. */
    method SaveEntryForm(editing: Option<PasswordEntry>, title: string, username: string, password: string,
                         notes: string, tagsText: string, newId: string, now1: Time, now2: Time)
      returns (err: Option<UiError>)
      requires Valid()
      modifies this, disk, rng
      ensures title == "" || username == "" || password == "" ==>
                err == Some(MissingEntryFields)
                && entries == old(entries) && originalEntries == old(originalEntries)
                && disk.State() == old(disk.State()) && rng.tape == old(rng.tape)
      ensures title != "" && username != "" && password != "" ==>
                var list := FormList(old(entries), editing, title, username, password, notes,
                                     ParsedTags(tagsText), newId, now1, now2);
                var s := SaveOutcome(old(disk.State()), old(rng.tape), prims, codec,
                                     currentAccount, masterPassword, list);
                && entries == list && disk.State() == s.disk && rng.tape == s.rest
                && (s.err.Some? ==>
                      err == Some(StorageFailed(s.err.value)) && originalEntries == old(originalEntries))
                && (s.err.None? ==> err == None && originalEntries == list)
      ensures accounts == old(accounts) && currentAccount == old(currentAccount)
      ensures masterPassword == old(masterPassword)
    {
      if title == "" || username == "" || password == "" {
        return Some(MissingEntryFields);
      }
      var list := BuildFormList(entries, editing, title, username, password, notes, tagsText, newId, now1, now2);
      err := ShowAndSave(list);
    }

    /** The tail of the save handler: the new list becomes the shown list
        and is saved; on success it becomes the original list too and the
        dashboard reloads it. */
    method ShowAndSave(list: seq<PasswordEntry>) returns (err: Option<UiError>)
      requires Valid()
      modifies this, disk, rng
      ensures var s := SaveOutcome(old(disk.State()), old(rng.tape), prims, codec,
                                   currentAccount, masterPassword, list);
              && entries == list && disk.State() == s.disk && rng.tape == s.rest
              && (s.err.Some? ==>
                    err == Some(StorageFailed(s.err.value)) && originalEntries == old(originalEntries))
              && (s.err.None? ==> err == None && originalEntries == list)
      ensures accounts == old(accounts) && currentAccount == old(currentAccount)
      ensures masterPassword == old(masterPassword)
    {
      entries := list;
      ghost var st0 := disk.State();
      ghost var tape0 := rng.tape;
      var e := SaveEncryptedData(disk, rng, prims, codec, currentAccount, masterPassword, entries);
      if e.Some? {
        return Some(StorageFailed(e.value));
      }
      originalEntries := entries;
      SaveThenLoad(st0, tape0, prims, codec, currentAccount, masterPassword, entries);
      err := ShowDashboard();
    }

    /** deleteEntry: the state changes only when the save succeeds, and the
        dashboard then reloads exactly the saved list. */
    method DeleteEntry(entryId: string) returns (err: Option<UiError>)
      requires Valid()
      modifies this, disk, rng
      ensures var list := WithoutEntry(old(entries), entryId);
              var s := SaveOutcome(old(disk.State()), old(rng.tape), prims, codec,
                                   currentAccount, masterPassword, list);
              && disk.State() == s.disk && rng.tape == s.rest
              && (s.err.Some? ==>
                    err == Some(StorageFailed(s.err.value))
                    && entries == old(entries) && originalEntries == old(originalEntries))
              && (s.err.None? ==> err == None && entries == list && originalEntries == list)
      ensures accounts == old(accounts) && currentAccount == old(currentAccount)
      ensures masterPassword == old(masterPassword)
    {
      var list := CopyOtherEntries(entries, entryId);
      ghost var st0 := disk.State();
      ghost var tape0 := rng.tape;
      var e := SaveEncryptedData(disk, rng, prims, codec, currentAccount, masterPassword, list);
      if e.Some? {
        return Some(StorageFailed(e.value));
      }
      entries := list;
      originalEntries := list;
      SaveThenLoad(st0, tape0, prims, codec, currentAccount, masterPassword, list);
      err := ShowDashboard();
    }

    /** showDeleteConfirmation: the shown list loses the record before the
        save; whatever the save gives, the list is then refreshed from disk
        with an empty search term. */
    method ConfirmDeleteEntry(target: PasswordEntry) returns (saveErr: Option<UiError>, refreshErr: Option<UiError>)
      modifies this, disk, rng
      ensures var list := WithoutEntry(old(entries), target.id);
              var s := SaveOutcome(old(disk.State()), old(rng.tape), prims, codec,
                                   currentAccount, masterPassword, list);
              var loaded := LoadResult(s.disk, prims, codec, currentAccount, masterPassword);
              && rng.tape == s.rest && disk.State() == DirStep(s.disk)
              && saveErr == (if s.err.Some? then Some(StorageFailed(s.err.value)) else None)
              && (loaded.Failure? ==>
                    refreshErr == Some(StorageFailed(loaded.error))
                    && entries == list && originalEntries == old(originalEntries))
              && (loaded.Success? ==>
                    refreshErr == None && entries == loaded.value && originalEntries == loaded.value)
      ensures accounts == old(accounts) && currentAccount == old(currentAccount)
      ensures masterPassword == old(masterPassword)
    {
      var list := CopyOtherEntries(entries, target.id);
      entries := list;
      var e := SaveEncryptedData(disk, rng, prims, codec, currentAccount, masterPassword, entries);
      saveErr := if e.Some? then Some(StorageFailed(e.value)) else None;
      refreshErr := RefreshEntryList("");
    }

    /** The export dialog once a destination was chosen: the account's file
        is copied there; the password is passed along and never read. */
    method ExportToFile(exportPath: string) returns (err: Option<UiError>)
      modifies disk
      ensures var s := ExportOutcome(old(disk.State()), currentAccount, exportPath);
              && disk.State() == s.disk
              && err == (if s.err.Some? then Some(StorageFailed(s.err.value)) else None)
    {
      var e := ExportEncryptedData(disk, currentAccount, masterPassword, exportPath);
      err := if e.Some? then Some(StorageFailed(e.value)) else None;
    }

    /** The import dialog once a source was chosen: the source's bytes
        replace the account's file; then the vault is reloaded into the
        shown list, refreshEntryList and showDashboard load it twice more,
        and both lists end as the imported vault under the current password.
        A failed import or reload leaves both lists as they were. */
    method ImportFromFile(importPath: string) returns (err: Option<UiError>)
      modifies this, disk
      ensures var s := ImportOutcome(old(disk.State()), currentAccount, importPath);
              && (s.err.Some? ==>
                    err == Some(StorageFailed(s.err.value)) && disk.State() == s.disk
                    && entries == old(entries) && originalEntries == old(originalEntries))
              && (s.err.None? ==>
                    var loaded := OpenVault(prims, codec, masterPassword, old(disk.State()).files[importPath]);
                    && importPath in old(disk.State()).files
                    && disk.State() == s.disk
                    && (loaded.Failure? ==>
                          err == Some(StorageFailed(loaded.error))
                          && entries == old(entries) && originalEntries == old(originalEntries))
                    && (loaded.Success? ==>
                          err == None && entries == loaded.value && originalEntries == loaded.value))
      ensures accounts == old(accounts) && currentAccount == old(currentAccount)
      ensures masterPassword == old(masterPassword)
    {
      ghost var st0 := disk.State();
      var e := ImportEncryptedData(disk, currentAccount, masterPassword, importPath);
      if e.Some? {
        return Some(StorageFailed(e.value));
      }
      ImportThenLoad(st0, prims, codec, currentAccount, importPath, masterPassword);
      var loaded := LoadEncryptedData(disk, prims, codec, currentAccount, masterPassword);
      if loaded.Failure? {
        return Some(StorageFailed(loaded.error));
      }
      entries := loaded.value;
      var _ := RefreshEntryList("");
      err := ShowDashboard();
    }
  }
}
