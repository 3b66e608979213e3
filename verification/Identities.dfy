// Agent identities: the table of canonical names and its allocation protocol.
module Identities {
  import opened Prelude
  import opened Slugs

  const MAX_IDENTITY_FIELD_BYTES: nat := 1024
  const MAX_WORKSPACE_ID_BYTES: nat := 256
  const MAX_ROLE_LABEL_BYTES: nat := 256
  const MAX_ALLOCATION_ATTEMPTS: nat := 8

  // ----- Fields -------------------------------------------------------------

  /** The length of a string in UTF-8. */
  function ByteLength(s: string): nat {
    if s == "" then 0
    else
      var c := s[0] as int;
      (if c < 0x80 then 1 else if c < 0x800 then 2 else if c < 0x1_0000 then 3 else 4) + ByteLength(s[1..])
  }

  predicate IsControl(c: char) { (c as int) < 0x20 || 0x7F <= c as int <= 0x9F }

  predicate ValidField(s: string, maximum: nat) {
    s != "" && ByteLength(s) <= maximum && forall i :: 0 <= i < |s| ==> !IsControl(s[i])
  }

  predicate ValidRole(s: string) {
    && ValidField(s, MAX_ROLE_LABEL_BYTES)
    && forall i :: 0 <= i < |s| ==> s[i] as int != 0x2028 && s[i] as int != 0x2029
  }

  type RoleLabel = s: string | ValidRole(s) witness "r"

  // ----- The table ----------------------------------------------------------

  /** The primary key: one harness session in one pane of one workspace. */
  datatype Key = Key(workspace: string, pane: string, harness: string, session: string)

  datatype Entry = Entry(name: string, slug: string, role: string)

  type Table = map<Key, Entry>

  datatype Identity = Identity(key: Key, entry: Entry)

  predicate ValidKey(key: Key) {
    && ValidField(key.workspace, MAX_WORKSPACE_ID_BYTES)
    && ValidField(key.pane, MAX_IDENTITY_FIELD_BYTES)
    && ValidField(key.harness, MAX_IDENTITY_FIELD_BYTES)
    && ValidField(key.session, MAX_IDENTITY_FIELD_BYTES)
  }

  predicate ValidRow(key: Key, entry: Entry) {
    ValidKey(key) && ValidCanonicalName(entry.name, entry.slug) && ValidRole(entry.role)
  }

  /** What `validate_rows` accepts. */
  predicate RowsValid(table: Table, expected: Option<string>) {
    && (forall k :: k in table ==> ValidRow(k, table[k]))
    && (forall k :: k in table ==> InWorkspace(k, expected))
    && OneWorkspace(table)
  }

  predicate InWorkspace(key: Key, expected: Option<string>) { expected.Some? ==> key.workspace == expected.value }

  predicate OneWorkspace(table: Table) {
    forall j, k :: j in table && k in table ==> j.workspace == k.workspace
  }

  /** The column constraint `canonical_name UNIQUE`. */
  predicate UniqueNames(table: Table) {
    forall j, k :: j in table && k in table && table[j].name == table[k].name ==> j == k
  }

  predicate Sound(table: Table) { RowsValid(table, None) && UniqueNames(table) }

  predicate Taken(table: Table, name: string) { exists k :: k in table && table[k].name == name }

  // ----- resolve_or_create --------------------------------------------------

  datatype Error = InvalidData | WorkspaceMismatch | AllocationExhausted

  datatype Outcome = Resolved(entry: Entry) | Declined(error: Error)

  /** What the suffix source answers, call by call. */
  type Draws = d: seq<Option<string>> | |d| == 8 witness [None, None, None, None, None, None, None, None]

  datatype Request = Request(expected: Option<string>, key: Key, role: RoleLabel, draws: Draws)

  /** One attempt: no name can be made, the name is taken, or it is free. */
  datatype Attempt = Unusable | Collides | Free(name: string)

  function Try(table: Table, slug: string, draw: Option<string>): Attempt {
    if draw.None? then Unusable
    else
      var name := NameFrom(slug, draw.value);
      if name.None? then Unusable else if Taken(table, name.value) then Collides else Free(name.value)
  }

  function Allocate(table: Table, r: Request, i: nat): (Table, Outcome)
    requires i <= MAX_ALLOCATION_ATTEMPTS
    decreases MAX_ALLOCATION_ATTEMPTS - i
  {
    if i == MAX_ALLOCATION_ATTEMPTS then (table, Declined(AllocationExhausted))
    else
      var slug := Slug(Some(r.role));
      match Try(table, slug, r.draws[i])
      case Unusable => (table, Declined(InvalidData))
      case Collides => Allocate(table, r, i + 1)
      case Free(name) =>
        var entry := Entry(name, slug, r.role);
        (table[r.key := entry], Resolved(entry))
  }

  /** The row of a known key after a request: only the role moves. */
  function Refreshed(entry: Entry, role: RoleLabel): Entry { entry.(role := role) }

  function Resolve(table: Table, r: Request): (Table, Outcome) {
    if !ValidKey(r.key) then (table, Declined(InvalidData))
    else if !InWorkspace(r.key, r.expected) then (table, Declined(WorkspaceMismatch))
    else if exists k :: k in table && k.workspace != r.key.workspace then (table, Declined(WorkspaceMismatch))
    else if r.key in table then
      var entry := Refreshed(table[r.key], r.role);
      (table[r.key := entry], Resolved(entry))
    else Allocate(table, r, 0)
  }

  // ----- One allocation -----------------------------------------------------

  predicate AllCollide(table: Table, r: Request, n: nat)
    requires n <= MAX_ALLOCATION_ATTEMPTS
  {
    forall i :: 0 <= i < n ==> Try(table, Slug(Some(r.role)), r.draws[i]).Collides?
  }

  lemma {:induction false} AllocateSkips(table: Table, r: Request, n: nat)
    requires n <= MAX_ALLOCATION_ATTEMPTS && AllCollide(table, r, n)
    ensures Allocate(table, r, 0) == Allocate(table, r, n)
  {
    if n > 0 {
      AllocateSkips(table, r, n - 1);
      assert Try(table, Slug(Some(r.role)), r.draws[n - 1]).Collides?;
    }
  }

  /** Allocation takes the first draw that does not collide. If no name can be made from
      it, or all eight collide, the request is declined and the table stays as it was. */
  lemma AllocationIsExact(table: Table, r: Request, n: nat)
    requires n <= MAX_ALLOCATION_ATTEMPTS && AllCollide(table, r, n)
    ensures n == MAX_ALLOCATION_ATTEMPTS ==> Allocate(table, r, 0) == (table, Declined(AllocationExhausted))
    ensures n < MAX_ALLOCATION_ATTEMPTS ==>
              var slug := Slug(Some(r.role));
              var attempt := Try(table, slug, r.draws[n]);
              && (attempt.Unusable? ==> Allocate(table, r, 0) == (table, Declined(InvalidData)))
              && (attempt.Free? ==>
                    var entry := Entry(attempt.name, slug, r.role);
                    Allocate(table, r, 0) == (table[r.key := entry], Resolved(entry)))
  {
    AllocateSkips(table, r, n);
  }

  lemma {:induction false} AllocateOutcome(table: Table, r: Request, i: nat)
    requires i <= MAX_ALLOCATION_ATTEMPTS
    ensures var (after, outcome) := Allocate(table, r, i);
            match outcome
            case Declined(_) => after == table
            case Resolved(e) =>
              && after == table[r.key := e]
              && e.slug == Slug(Some(r.role)) && e.role == r.role
              && !Taken(table, e.name) && ValidCanonicalName(e.name, e.slug)
    decreases MAX_ALLOCATION_ATTEMPTS - i
  {
    if i < MAX_ALLOCATION_ATTEMPTS {
      var slug := Slug(Some(r.role));
      match Try(table, slug, r.draws[i])
      case Unusable =>
      case Collides => AllocateOutcome(table, r, i + 1);
      case Free(name) => NamesValidateExactly(name, slug);
    }
  }

  /** A field is accepted exactly if it has 1 to `maximum` bytes and no control character. */
  lemma AsciiFieldIff(s: string, maximum: nat)
    requires forall i :: 0 <= i < |s| ==> ' ' <= s[i] <= '~'
    ensures ValidField(s, maximum) <==> 1 <= |s| <= maximum
  {
    AsciiLength(s);
  }

  lemma {:induction false} AsciiLength(s: string)
    requires forall i :: 0 <= i < |s| ==> ' ' <= s[i] <= '~'
    ensures ByteLength(s) == |s|
  {
    if s != "" { AsciiLength(s[1..]); }
  }

  /** How wide a character is in UTF-8. */
  predicate HasWidth(c: char, width: nat) {
    var n := c as int;
    match width
    case 1 => n <= 0x7F
    case 2 => 0x80 <= n <= 0x7FF
    case 3 => 0x800 <= n <= 0xFFFF
    case 4 => 0x1_0000 <= n
    case _ => false
  }

  lemma {:induction false} UniformLength(s: string, width: nat)
    requires forall i :: 0 <= i < |s| ==> HasWidth(s[i], width)
    ensures ByteLength(s) == width * |s|
  {
    if s != "" { UniformLength(s[1..], width); }
  }

  /** A role label of printable ASCII has 1 to 256 characters; none holds a control character
      or a line or paragraph separator. */
  lemma RoleIff(s: string)
    ensures (forall i :: 0 <= i < |s| ==> ' ' <= s[i] <= '~') ==> (ValidRole(s) <==> 1 <= |s| <= 256)
    ensures forall i :: 0 <= i < |s| && ValidRole(s) ==>
              s[i] as int >= 0x20 && !(0x7F <= s[i] as int <= 0x9F) && s[i] as int != 0x2028 && s[i] as int != 0x2029
  {
    if forall i :: 0 <= i < |s| ==> ' ' <= s[i] <= '~' { AsciiLength(s); }
  }

  /** A key the table may hold: 1 to 256 bytes of workspace, 1 to 1024 of the others. */
  predicate GoodKey(key: Key) {
    ValidField(key.workspace, 256) && ValidField(key.pane, 1024) && ValidField(key.harness, 1024) && ValidField(key.session, 1024)
  }

  /** The name is the slug, a hyphen and an accepted suffix, 32 characters at most. */
  ghost predicate NamedAfter(name: string, slug: string) {
    IsSlug(slug) && exists suffix :: name == slug + "-" + suffix && ValidSuffix(suffix) && |slug| + |suffix| <= 31
  }

  lemma CanonicalNameIff(name: string, slug: string)
    ensures ValidCanonicalName(name, slug) <==> NamedAfter(name, slug)
  {
    NamesValidateExactly(name, slug);
    forall suffix
      ensures NameFrom(slug, suffix) == Some(name) <==>
              IsSlug(slug) && name == slug + "-" + suffix && ValidSuffix(suffix) && |slug| + |suffix| <= 31
    {
      PartsFit(slug, suffix);
    }
    hide ValidCanonicalName; hide IsSlug; hide ValidSuffix; hide NameFrom;
  }

  /** A table validates exactly if every key is well formed and of the workspace expected, if
      any, every name is made from the row's slug, every role is a label, and all keys are of
      one workspace. */
  lemma RowsValidIff(table: Table, expected: Option<string>)
    ensures RowsValid(table, expected) <==>
            && (forall k :: k in table ==>
                  && GoodKey(k) && (expected.None? || k.workspace == expected.value)
                  && NamedAfter(table[k].name, table[k].slug) && ValidRole(table[k].role))
            && forall j, k :: j in table && k in table ==> j.workspace == k.workspace
  {
    hide ValidCanonicalName; hide NamedAfter; hide ValidField; hide ValidRole;
    forall k | k in table
      ensures ValidCanonicalName(table[k].name, table[k].slug) <==> NamedAfter(table[k].name, table[k].slug)
    {
      CanonicalNameIff(table[k].name, table[k].slug);
    }
  }

  /** Every answer a request can get.  A malformed key is invalid; a key of another workspace
      than the store expects or the table holds is a mismatch; a known key is answered with
      its row under the new role; and an unknown one is given the name of its first draw that
      does not collide, unless that draw is unusable or all eight collide. */
  lemma ResolveAnswers(table: Table, r: Request)
    ensures var (after, outcome) := Resolve(table, r);
            var slug := Slug(Some(r.role));
            if !GoodKey(r.key) then after == table && outcome == Declined(InvalidData)
            else if (r.expected.Some? && r.expected.value != r.key.workspace) ||
                    (exists k :: k in table && k.workspace != r.key.workspace)
            then after == table && outcome == Declined(WorkspaceMismatch)
            else if r.key in table then
              outcome == Resolved(Entry(table[r.key].name, table[r.key].slug, r.role)) &&
              after == table[r.key := outcome.entry]
            else if AllCollide(table, r, MAX_ALLOCATION_ATTEMPTS) then
              after == table && outcome == Declined(AllocationExhausted)
            else
              exists n: nat ::
                && n < MAX_ALLOCATION_ATTEMPTS && AllCollide(table, r, n)
                && match Try(table, slug, r.draws[n])
                   case Collides => false
                   case Unusable => after == table && outcome == Declined(InvalidData)
                   case Free(name) =>
                     outcome == Resolved(Entry(name, slug, r.role)) && after == table[r.key := outcome.entry]
  {
    if !AllCollide(table, r, MAX_ALLOCATION_ATTEMPTS) {
      var n := FirstUncollided(table, r);
      AllocationIsExact(table, r, n);
    } else {
      AllocationIsExact(table, r, MAX_ALLOCATION_ATTEMPTS);
    }
    hide Allocate; hide Try; hide ValidField; hide Slug;
  }

  lemma FirstUncollided(table: Table, r: Request) returns (n: nat)
    requires !AllCollide(table, r, MAX_ALLOCATION_ATTEMPTS)
    ensures n < MAX_ALLOCATION_ATTEMPTS && AllCollide(table, r, n)
    ensures !Try(table, Slug(Some(r.role)), r.draws[n]).Collides?
  {
    hide Try; hide Slug;
    n := 0;
    while Try(table, Slug(Some(r.role)), r.draws[n]).Collides?
      invariant n < MAX_ALLOCATION_ATTEMPTS && AllCollide(table, r, n)
      decreases MAX_ALLOCATION_ATTEMPTS - n
    {
      assert AllCollide(table, r, n + 1);
      n := n + 1;
    }
  }

  /** An attempt is a name exactly of the slug, a hyphen and the drawn suffix; it collides
      exactly if another row has that name. */
  lemma TryMeans(table: Table, role: Option<string>, draw: Option<string>)
    ensures var slug := Slug(role);
            var usable := draw.Some? && 4 <= |draw.value| <= 8 && |slug| + 1 + |draw.value| <= 32 &&
                          forall i :: 0 <= i < |draw.value| ==> 'a' <= draw.value[i] <= 'z' || '2' <= draw.value[i] <= '7';
            match Try(table, slug, draw)
            case Unusable => !usable
            case Collides => usable && exists k :: k in table && table[k].name == slug + "-" + draw.value
            case Free(name) =>
              usable && name == slug + "-" + draw.value && forall k :: k in table ==> table[k].name != name
  {
    SlugMeaning(role);
    if draw.Some? { PartsFit(Slug(role), draw.value); }
    hide Slug;
  }

  /** With suffixes drawn from identifiers the allocation fails only by exhaustion, and
      exactly when all eight names are taken. */
  lemma RandomAllocationIsExact(table: Table, r: Request, ids: seq<string>)
    requires |ids| == MAX_ALLOCATION_ATTEMPTS
    requires forall i :: 0 <= i < |ids| ==> RandomSuffix(ids[i]).Some? && r.draws[i] == RandomSuffix(ids[i])
    ensures Allocate(table, r, 0).1.Declined? <==> AllCollide(table, r, MAX_ALLOCATION_ATTEMPTS)
    ensures Allocate(table, r, 0).1.Declined? ==> Allocate(table, r, 0).1.error == AllocationExhausted
  {
    var n := 0;
    while n < MAX_ALLOCATION_ATTEMPTS && Try(table, Slug(Some(r.role)), r.draws[n]).Collides?
      invariant n <= MAX_ALLOCATION_ATTEMPTS && AllCollide(table, r, n)
    {
      n := n + 1;
    }
    AllocationIsExact(table, r, n);
    if n < MAX_ALLOCATION_ATTEMPTS { RandomSuffixFits(Some(r.role), ids[n]); }
  }

  // ----- Every request ------------------------------------------------------

  /** A declined request changes nothing; a resolved one changes the row of its key only. */
  lemma ResolveTouchesOneRow(table: Table, r: Request)
    ensures var (after, outcome) := Resolve(table, r);
            if outcome.Declined? then after == table else after == table[r.key := outcome.entry]
  {
    hide ValidCanonicalName, ValidField, ValidRole, Slug, NameFrom;
    AllocateOutcome(table, r, 0);
  }

  lemma InsertKeepsSound(table: Table, key: Key, entry: Entry)
    requires Sound(table) && ValidRow(key, entry)
    requires forall k :: k in table ==> k.workspace == key.workspace
    requires forall k :: k in table && k != key ==> table[k].name != entry.name
    ensures Sound(table[key := entry])
  {
    var after := table[key := entry];
    forall k | k in after ensures ValidRow(k, after[k]) {
      if k != key { assert k in table; }
    }
    assert OneWorkspace(after);
    assert UniqueNames(after);
  }

  /** Every request keeps what startup validates, and the names unique. */
  lemma ResolveKeepsSound(table: Table, r: Request)
    requires Sound(table)
    ensures Sound(Resolve(table, r).0)
  {
    hide ValidCanonicalName, ValidField, ValidRole, Slug, NameFrom;
    var (after, outcome) := Resolve(table, r);
    if outcome.Resolved? {
      ResolveTouchesOneRow(table, r);
      if r.key in table {
        assert ValidRow(r.key, table[r.key]);
        InsertKeepsSound(table, r.key, Refreshed(table[r.key], r.role));
      } else {
        AllocateOutcome(table, r, 0);
        InsertKeepsSound(table, r.key, outcome.entry);
      }
    }
  }

  /** A key keeps its canonical name and its first slug through any request. */
  lemma ResolveKeepsName(table: Table, r: Request, key: Key)
    requires key in table
    ensures var after := Resolve(table, r).0;
            && key in after
            && after[key].name == table[key].name && after[key].slug == table[key].slug
  {
    ResolveTouchesOneRow(table, r);
    if r.key == key && Resolve(table, r).1.Resolved? {
      assert Resolve(table, r).1.entry == Refreshed(table[key], r.role);
    }
  }

  /** A resolved key is answered with the row that is then stored, and looked up by its
      name it is the only one found. */
  lemma ResolvedIsFound(table: Table, r: Request)
    requires Sound(table) && Resolve(table, r).1.Resolved?
    ensures var (after, outcome) := Resolve(table, r);
            && r.key in after && after[r.key] == outcome.entry && outcome.entry.role == r.role
            && forall k :: k in after && after[k].name == outcome.entry.name ==> k == r.key
  {
    hide ValidCanonicalName, ValidField, ValidRole, Slug, NameFrom;
    ResolveKeepsSound(table, r);
    ResolveTouchesOneRow(table, r);
    AllocateOutcome(table, r, 0);
  }

  // ----- Whole runs ---------------------------------------------------------

  function Serve(table: Table, requests: seq<Request>): Table {
    if requests == [] then table
    else Resolve(Serve(table, requests[..|requests| - 1]), requests[|requests| - 1]).0
  }

  /** The role of `key` after the requests: that of its last request whose store expects
      the key's workspace, or the one it had. */
  function LatestRole(requests: seq<Request>, key: Key, role: string): string {
    if requests == [] then role
    else
      var r := requests[|requests| - 1];
      if r.key == key && InWorkspace(key, r.expected) then r.role
      else LatestRole(requests[..|requests| - 1], key, role)
  }

  /** Through any run, across restarts and stores of any expectation: the table always
      validates, no two keys share a name, and a key's name and first slug never change. */
  lemma {:induction false} NamesLast(table: Table, requests: seq<Request>)
    requires Sound(table)
    ensures var after := Serve(table, requests);
            && Sound(after)
            && (forall k :: k in table ==>
                  k in after && after[k].name == table[k].name && after[k].slug == table[k].slug)
  {
    if requests != [] {
      var before, r := requests[..|requests| - 1], requests[|requests| - 1];
      NamesLast(table, before);
      ResolveKeepsSound(Serve(table, before), r);
      forall k | k in table
        ensures k in Serve(table, requests)
        ensures Serve(table, requests)[k].name == table[k].name && Serve(table, requests)[k].slug == table[k].slug
      {
        ResolveKeepsName(Serve(table, before), r, k);
      }
    }
  }

  /** The role of a known key is always the latest one asked for. */
  lemma {:induction false} RolesFollow(table: Table, requests: seq<Request>, key: Key)
    requires Sound(table) && key in table
    ensures key in Serve(table, requests)
    ensures Serve(table, requests)[key].role == LatestRole(requests, key, table[key].role)
  {
    if requests != [] {
      var before, r := requests[..|requests| - 1], requests[|requests| - 1];
      RolesFollow(table, before, key);
      NamesLast(table, before);
      ResolveTouchesOneRow(Serve(table, before), r);
      if r.key == key {
        assert ValidRow(key, Serve(table, before)[key]);
      }
    }
  }

  /** Two requests of different keys that both resolve, at any points of a run, get
      different names. */
  lemma DifferentKeysDiffer(table: Table, first: Request, between: seq<Request>, second: Request)
    requires Sound(table) && first.key != second.key
    requires Resolve(table, first).1.Resolved?
    requires Resolve(Serve(Resolve(table, first).0, between), second).1.Resolved?
    ensures Resolve(table, first).1.entry.name !=
            Resolve(Serve(Resolve(table, first).0, between), second).1.entry.name
  {
    var one := Resolve(table, first).0;
    ResolveKeepsSound(table, first);
    ResolvedIsFound(table, first);
    NamesLast(one, between);
    ResolvedIsFound(Serve(one, between), second);
    ResolveKeepsName(Serve(one, between), second, first.key);
  }

  // ----- The store ----------------------------------------------------------

  lemma WorkspacesCount(table: Table, workspaces: set<string>)
    requires workspaces == set k | k in table :: k.workspace
    ensures |workspaces| > 1 <==> !OneWorkspace(table)
  {
    if !OneWorkspace(table) {
      var j, k :| j in table && k in table && j.workspace != k.workspace;
      var two := {j.workspace, k.workspace};
      assert two <= workspaces;
      SubsetSize(two, workspaces);
    } else if table != map[] {
      var k :| k in table;
      assert workspaces == {k.workspace};
    } else {
      assert workspaces == {};
    }
  }

  lemma {:induction false} SubsetSize(a: set<string>, b: set<string>)
    requires a <= b
    ensures |a| <= |b|
  {
    assert b == a + (b - a);
  }

  /** `validate_rows`. */
  method ValidateRows(table: Table, expected: Option<string>) returns (error: Option<Error>)
    ensures error.None? <==> RowsValid(table, expected)
  {
    hide ValidRow;
    var todo := table.Keys;
    var workspaces: set<string> := {};
    while todo != {}
      invariant todo <= table.Keys
      invariant forall k :: k in table && k !in todo ==> ValidRow(k, table[k]) && InWorkspace(k, expected)
      invariant workspaces == set k | k in table && k !in todo :: k.workspace
    {
      var k :| k in todo;
      if !ValidRow(k, table[k]) {
        return Some(InvalidData);
      }
      if !InWorkspace(k, expected) {
        return Some(WorkspaceMismatch);
      }
      workspaces := workspaces + {k.workspace};
      todo := todo - {k};
    }
    WorkspacesCount(table, workspaces);
    if |workspaces| > 1 {
      return Some(WorkspaceMismatch);
    }
    return None;
  }

  /** The database connection that every clone of a store shares. */
  class Connection {
    var rows: Table

    constructor (rows: Table)
      ensures this.rows == rows
    {
      this.rows := rows;
    }
  }

  class IdentityStore {
    const connection: Connection
    const expected: Option<string>

    constructor (connection: Connection, expected: Option<string>)
      ensures this.connection == connection && this.expected == expected
    {
      this.connection := connection;
      this.expected := expected;
    }

    /** `from_shared_connection`: no store on rows that do not validate. */
    static method Open(connection: Connection) returns (store: IdentityStore?)
      requires UniqueNames(connection.rows)
      ensures store != null <==> Sound(connection.rows)
      ensures store != null ==> fresh(store) && store.connection == connection && store.expected == None
    {
      var error := ValidateRows(connection.rows, None);
      if error.Some? {
        return null;
      }
      store := new IdentityStore(connection, None);
    }

    /** `for_workspace`: a second store on the same connection. */
    method ForWorkspace(workspace: string) returns (store: IdentityStore?)
      ensures store != null <==>
              ValidField(workspace, MAX_WORKSPACE_ID_BYTES) && RowsValid(connection.rows, Some(workspace))
      ensures store != null ==> fresh(store) && store.connection == connection && store.expected == Some(workspace)
    {
      if !ValidField(workspace, MAX_WORKSPACE_ID_BYTES) {
        return null;
      }
      var error := ValidateRows(connection.rows, Some(workspace));
      if error.Some? {
        return null;
      }
      store := new IdentityStore(connection, Some(workspace));
    }

    /** `resolve_or_create`. */
    method ResolveOrCreate(key: Key, role: RoleLabel, draws: Draws) returns (outcome: Outcome)
      requires Sound(connection.rows)
      modifies connection
      ensures (connection.rows, outcome) == Resolve(old(connection.rows), Request(expected, key, role, draws))
      ensures Sound(connection.rows)
    {
      hide ValidField, ValidCanonicalName, ValidRole;
      ghost var r := Request(expected, key, role, draws);
      ghost var before := connection.rows;
      ResolveKeepsSound(before, r);
      if !ValidKey(key) {
        return Declined(InvalidData);
      }
      if !InWorkspace(key, expected) {
        return Declined(WorkspaceMismatch);
      }
      if connection.rows.Keys != {} {
        var first :| first in connection.rows.Keys;
        if first.workspace != key.workspace {
          return Declined(WorkspaceMismatch);
        }
        assert first in before;
      }
      if key in connection.rows {
        var entry := Refreshed(connection.rows[key], role);
        connection.rows := connection.rows[key := entry];
        return Resolved(entry);
      }
      var slug := CanonicalSlug(Some(role));
      for i := 0 to MAX_ALLOCATION_ATTEMPTS
        invariant connection.rows == before
        invariant Allocate(before, r, 0) == Allocate(before, r, i)
      {
        if draws[i].None? {
          return Declined(InvalidData);
        }
        var name := NameFrom(slug, draws[i].value);
        if name.None? {
          return Declined(InvalidData);
        }
        if !Taken(connection.rows, name.value) {
          var entry := Entry(name.value, slug, role);
          connection.rows := connection.rows[key := entry];
          return Resolved(entry);
        }
      }
      return Declined(AllocationExhausted);
    }

    /** `find_by_canonical`. */
    method FindByCanonical(name: string) returns (found: Option<Identity>)
      requires Sound(connection.rows)
      ensures found.None? <==> !Taken(connection.rows, name)
      ensures found.Some? ==>
                && found.value.key in connection.rows && connection.rows[found.value.key] == found.value.entry
                && forall k :: k in connection.rows && connection.rows[k].name == name <==> k == found.value.key
    {
      hide RowsValid;
      var matching := set k | k in connection.rows && connection.rows[k].name == name;
      assert forall k :: k in connection.rows && connection.rows[k].name == name ==> k in matching;
      if matching == {} {
        return None;
      }
      var k :| k in matching;
      return Some(Identity(k, connection.rows[k]));
    }
  }
}
