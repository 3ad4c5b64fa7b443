/** The credential record stored in a vault (entry/entry.go). */
module Entry {

  /** A wall-clock reading, as `time.Now()` returns it, in nanoseconds since
      the Unix epoch. */
  datatype Time = Time(unixNano: int)

  datatype PasswordEntry = PasswordEntry(
    id: string,          // generated once, by uuid.New
    title: string,
    username: string,
    password: string,
    url: string,
    notes: string,
    tags: seq<string>,
    createdAt: Time,
    updatedAt: Time)

  /** NewPasswordEntry, with the generated UUID and the two clock readings
      (one per field) passed in. */
  function NewPasswordEntry(id: string, title: string, username: string, password: string,
                            url: string, notes: string, tags: seq<string>,
                            createdAt: Time, updatedAt: Time): PasswordEntry
  {
    PasswordEntry(id, title, username, password, url, notes, tags, createdAt, updatedAt)
  }

  /** The record keeps every argument unchanged; the two timestamps are two
      separate readings and need not agree; records built with different
      identifiers are different records. */
  lemma NewEntryFields(id: string, title: string, username: string, password: string,
                       url: string, notes: string, tags: seq<string>,
                       createdAt: Time, updatedAt: Time, otherId: string)
    ensures var e := NewPasswordEntry(id, title, username, password, url, notes, tags, createdAt, updatedAt);
      && e.id == id && e.title == title && e.username == username && e.password == password
      && e.url == url && e.notes == notes && e.tags == tags
      && e.createdAt == createdAt && e.updatedAt == updatedAt
    ensures otherId != id ==>
      NewPasswordEntry(id, title, username, password, url, notes, tags, createdAt, updatedAt)
      != NewPasswordEntry(otherId, title, username, password, url, notes, tags, createdAt, updatedAt)
  {
  }

  /** The fields of a record as encoding/json sees them. */
  datatype JsonField = Id | Title | Username | Password | Url | Notes | Tags | CreatedAt | UpdatedAt

  /** The object key each field is written under (its `json` tag). */
  function JsonName(f: JsonField): string {
    match f
    case Id => "id"
    case Title => "title"
    case Username => "username"
    case Password => "password"
    case Url => "url"
    case Notes => "notes"
    case Tags => "tags"
    case CreatedAt => "createdAt"
    case UpdatedAt => "updatedAt"
  }

  /** The fields encoding/json writes for a record, in declaration order:
      `url`, `notes` and `tags` carry `omitempty` and are left out when empty
      (an empty or nil tag slice alike); the other six are always written. */
  function JsonKeys(e: PasswordEntry): (keys: seq<JsonField>)
    ensures Id in keys && Title in keys && Username in keys && Password in keys
    ensures CreatedAt in keys && UpdatedAt in keys
    ensures Url in keys <==> e.url != ""
    ensures Notes in keys <==> e.notes != ""
    ensures Tags in keys <==> e.tags != []
  {
    var always := [Id, Title, Username, Password];
    var url := if e.url != "" then [Url] else [];
    var notes := if e.notes != "" then [Notes] else [];
    var tags := if e.tags != [] then [Tags] else [];
    var stamps := [CreatedAt, UpdatedAt];
    assert Url !in always && Url !in notes && Url !in tags && Url !in stamps;
    assert Notes !in always && Notes !in url && Notes !in tags && Notes !in stamps;
    assert Tags !in always && Tags !in url && Tags !in notes && Tags !in stamps;
    always + url + notes + tags + stamps
  }
}
