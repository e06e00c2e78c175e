/** A role as the editors keep it : read from the yaml with every option shown as it applies, written
    back with the options the role has an opinion about. */
module Roles {
  import opened Wrappers
  import opened Texts

  // ─── the options ─────────────────────────────────────────────────────────────

  /** An option's value : on or off, or something else a hand wrote. */
  datatype Flag = Switch(on: bool) | Written(text: string, truthy: bool)

  predicate On(f: Flag) {
    match f
    case Switch(on) => on
    case Written(_, truthy) => truthy
  }

  type Options = map<string, Flag>

  /** The options there are, those on when absent, those on when absent for the admin only. */
  datatype Tables = Tables(known: seq<string>, onByDefault: seq<string>, adminByDefault: seq<string>)

  const SHOW_SETTINGS := "showSettings"
  const SHOW_APPEARANCE_SETTINGS := "showAppearanceSettings"
  const SHOW_CONNECTIONS_SETTINGS := "showConnectionsSettings"
  const SHOW_LOGS := "showLogs"
  const SHOW_AUDIT_LOG := "showAuditLog"
  const ALLOW_BACKUP_OPS := "allowBackupOps"
  const SHOW_DESIGNER := "showDesigner"
  const ALLOW_FORM_DESIGN := "allowFormDesign"
  const ALLOW_PLAYBOOK_DESIGN := "allowPlaybookDesign"
  const ALLOW_WORKFLOW_DESIGN := "allowWorkflowDesign"
  const ALLOW_INVENTORY_DESIGN := "allowInventoryDesign"
  const ALLOW_VARS_FILE_DESIGN := "allowVarsFileDesign"
  const SHOW_JOBS := "showJobs"
  const SHOW_ALL_JOB_LOGS := "showAllJobLogs"
  const MANAGE_ALL_JOBS := "manageAllJobs"
  const SHOW_EXTRAVARS := "showExtravars"
  const SHOW_DEBUG_BUTTONS := "showDebugButtons"
  const SHOW_ARTIFACTS := "showArtifacts"
  const ALLOW_VERBOSE_MODE := "allowVerboseMode"
  const ALLOW_JOB_RELAUNCH := "allowJobRelaunch"
  const ALLOW_JOB_DELETION := "allowJobDeletion"
  const ALLOW_SCHEDULED_JOBS := "allowScheduledJobs"
  const ALLOW_PLANNED_JOBS := "allowPlannedJobs"
  const ALLOW_STORED_JOBS := "allowStoredJobs"
  const ALLOW_LOGIN := "allowLogin"
  const CHAT := "allowChat"
  const MCP := "allowMcp"
  const ALLOW_FILE_UPLOADS := "allowFileUploads"
  const API_TOKENS := "allowApiTokens"
  const EXTENDED := "extendedTokenExpiration"

  const ROLE_TABLES := Tables(
    [SHOW_SETTINGS, SHOW_APPEARANCE_SETTINGS, SHOW_CONNECTIONS_SETTINGS, SHOW_LOGS, SHOW_AUDIT_LOG,
     ALLOW_BACKUP_OPS, SHOW_DESIGNER, ALLOW_FORM_DESIGN, ALLOW_PLAYBOOK_DESIGN, ALLOW_WORKFLOW_DESIGN,
     ALLOW_INVENTORY_DESIGN, ALLOW_VARS_FILE_DESIGN, SHOW_JOBS, SHOW_ALL_JOB_LOGS, MANAGE_ALL_JOBS,
     SHOW_EXTRAVARS, SHOW_DEBUG_BUTTONS, SHOW_ARTIFACTS, ALLOW_VERBOSE_MODE, ALLOW_JOB_RELAUNCH,
     ALLOW_JOB_DELETION, ALLOW_SCHEDULED_JOBS, ALLOW_PLANNED_JOBS, ALLOW_STORED_JOBS, ALLOW_LOGIN, CHAT, MCP,
     ALLOW_FILE_UPLOADS, API_TOKENS, EXTENDED],
    [ALLOW_FORM_DESIGN, ALLOW_PLAYBOOK_DESIGN, ALLOW_WORKFLOW_DESIGN, ALLOW_INVENTORY_DESIGN,
     ALLOW_VARS_FILE_DESIGN, ALLOW_VERBOSE_MODE, SHOW_JOBS, SHOW_DEBUG_BUTTONS, SHOW_EXTRAVARS,
     SHOW_ARTIFACTS, ALLOW_STORED_JOBS, ALLOW_FILE_UPLOADS, ALLOW_JOB_DELETION, ALLOW_PLANNED_JOBS,
     ALLOW_LOGIN, CHAT, MCP],
    [SHOW_SETTINGS, SHOW_DESIGNER, SHOW_LOGS, ALLOW_BACKUP_OPS, ALLOW_JOB_RELAUNCH, SHOW_ALL_JOB_LOGS,
     ALLOW_SCHEDULED_JOBS])

  /** What the rules below need of the tables : the options they name are known, and API tokens are off
      when absent. */
  ghost predicate Usable(t: Tables) {
    && CHAT in t.known && MCP in t.known && API_TOKENS in t.known && EXTENDED in t.known
    && API_TOKENS !in t.onByDefault && API_TOKENS !in t.adminByDefault
    && (forall k :: k in t.onByDefault || k in t.adminByDefault ==> k in t.known)
  }

  lemma NamesDiffer()
    ensures CHAT != MCP && CHAT != API_TOKENS && MCP != API_TOKENS && EXTENDED != MCP && EXTENDED != API_TOKENS
  {
    assert CHAT[5] != MCP[5] && CHAT[5] != API_TOKENS[5] && MCP[5] != API_TOKENS[5] && EXTENDED[0] != MCP[0];
  }

  /** What an option is when the role does not say. */
  predicate Default(t: Tables, name: string, k: string) {
    if k in t.adminByDefault then name == "admin" else k in t.onByDefault
  }

  function DefaultsOf(t: Tables, name: string): map<string, bool> {
    map k | k in t.known :: Default(t, name, k)
  }

  method SetAll(defaults: map<string, bool>, keys: seq<string>, on: bool) returns (set_: map<string, bool>)
    ensures set_.Keys == defaults.Keys + set k | k in keys
    ensures forall k :: k in set_ ==> set_[k] == if k in keys then on else defaults[k]
  {
    set_ := defaults;
    for i := 0 to |keys|
      invariant set_.Keys == defaults.Keys + set k | k in keys[..i]
      invariant forall k :: k in set_ ==> set_[k] == if k in keys[..i] then on else defaults[k]
    {
      assert keys[..i + 1] == keys[..i] + [keys[i]];
      set_ := set_[keys[i] := on];
    }
    assert keys[..|keys|] == keys;
  }

  /** The value of every option for a role that does not spell it out. */
  method RoleOptionDefaults(t: Tables, name: string) returns (defaults: map<string, bool>)
    requires Usable(t)
    ensures defaults.Keys == set k | k in t.known
    ensures forall k :: k in t.known ==>
              (defaults[k] <==> if k in t.adminByDefault then name == "admin" else k in t.onByDefault)
    ensures defaults == DefaultsOf(t, name)
  {
    defaults := map[];
    defaults := SetAll(defaults, t.known, false);
    defaults := SetAll(defaults, t.onByDefault, true);
    defaults := SetAll(defaults, t.adminByDefault, name == "admin");
  }

  /** A value is on : true, or anything else that JavaScript takes for true. */
  lemma OnIs(f: Flag)
    ensures On(f) <==> f == Switch(true) || (f.Written? && f.truthy)
  {
  }

  // ─── reading a role ──────────────────────────────────────────────────────────

  /** The options of a role, those it does not say as they are by default. */
  function Materialized(t: Tables, name: string, stored: Options): Options {
    map k | k in (set x | x in t.known) + stored.Keys ::
      if k in stored then (if k in t.known then Switch(On(stored[k])) else stored[k]) else Switch(Default(t, name, k))
  }

  /** allowMcp left out is as allowChat, allowApiTokens left out as extendedTokenExpiration. */
  function Followed(options: Options, stored: Options): Options
    requires CHAT in options && EXTENDED in options
  {
    var withMcp := if MCP in stored then options else options[MCP := options[CHAT]];
    if API_TOKENS in stored then withMcp else withMcp[API_TOKENS := Switch(On(withMcp[EXTENDED]))]
  }

  /** The options a role shows : its own, the others as they apply. */
  function Shown(t: Tables, name: string, stored: Options): Options
    requires CHAT in t.known && EXTENDED in t.known
  {
    Followed(Materialized(t, name, stored), stored)
  }

  /** What one known option shows. */
  lemma ShownIs(t: Tables, name: string, stored: Options, k: string)
    requires Usable(t)
    ensures Materialized(t, name, stored).Keys == (set x | x in t.known) + stored.Keys
    ensures CHAT in Materialized(t, name, stored) && EXTENDED in Materialized(t, name, stored)
    ensures Shown(t, name, stored).Keys == (set x | x in t.known) + stored.Keys
    ensures k in t.known ==> Shown(t, name, stored)[k] == Switch(
      if k in stored then On(stored[k])
      else if k == MCP then (if CHAT in stored then On(stored[CHAT]) else Default(t, name, CHAT))
      else if k == API_TOKENS then (if EXTENDED in stored then On(stored[EXTENDED]) else Default(t, name, EXTENDED))
      else Default(t, name, k))
    ensures k !in t.known && k in stored ==> Shown(t, name, stored)[k] == stored[k]
  {
    NamesDiffer();
  }

  /** A role as the editors keep it ; `explicit` : the options the yaml spelled out. */
  datatype Editable = Editable(name: string, options: Options, explicit: set<string>,
                               groups: seq<Member>, users: seq<Member>)

  /** A role as the yaml has it. */
  datatype Role = Role(name: string, options: Option<Options>, groups: seq<string>, users: Option<seq<string>>)

  function StoredOptions(r: Role): Options {
    match r.options
    case None => map[]
    case Some(options) => options
  }

  function Loaded(t: Tables, r: Role): Editable
    requires CHAT in t.known && EXTENDED in t.known
  {
    Editable(r.name, Shown(t, r.name, StoredOptions(r)), StoredOptions(r).Keys,
             Parsed(r.groups), Parsed(match r.users case None => [] case Some(users) => users))
  }

  method Materialize(t: Tables, name: string, stored: Options) returns (options: Options)
    requires Usable(t)
    ensures options == Materialized(t, name, stored)
  {
    var defaults := RoleOptionDefaults(t, name);
    options := map k | k in defaults :: Switch(defaults[k]);
    hide Usable, On, Default;
    var left := stored.Keys;
    while left != {}
      invariant left <= stored.Keys
      invariant options.Keys == (set x | x in t.known) + (stored.Keys - left)
      invariant forall k :: k in options ==>
        options[k] == (if k in stored && k !in left then (if k in t.known then Switch(On(stored[k])) else stored[k])
                       else Switch(Default(t, name, k)))
      decreases left
    {
      var k :| k in left;
      options := options[k := if k in t.known then Switch(On(stored[k])) else stored[k]];
      left := left - {k};
    }
  }

  method RoleToEditable(t: Tables, r: Role) returns (e: Editable)
    requires Usable(t)
    ensures e == Loaded(t, r)
  {
    var stored := StoredOptions(r);
    var options := Materialize(t, r.name, stored);
    hide Parsed, Materialized;
    assert CHAT in options && EXTENDED in options by { ShownIs(t, r.name, stored, CHAT); }
    if MCP !in stored {
      options := options[MCP := options[CHAT]];
    }
    if API_TOKENS !in stored {
      options := options[API_TOKENS := Switch(On(options[EXTENDED]))];
    }
    var users := match r.users case None => [] case Some(users) => users;
    e := Editable(r.name, options, stored.Keys, Parsed(r.groups), Parsed(users));
  }

  // ─── writing it back ─────────────────────────────────────────────────────────

  predicate Value(options: Options, k: string) {
    k in options && On(options[k])
  }

  /** What an option left out would be read as : allowMcp left out is read as allowChat. */
  predicate Unsaid(t: Tables, name: string, options: Options, k: string) {
    if k == MCP && CHAT in options then On(options[CHAT])
    else if k == MCP then Default(t, name, CHAT)
    else Default(t, name, k)
  }

  /** An option is written when the yaml spelled it out, or when it is not what leaving it out means. */
  predicate IsWritten(t: Tables, name: string, e: Editable, k: string) {
    k in e.explicit || Value(e.options, k) != Unsaid(t, name, e.options, k)
  }

  function WrittenOptions(t: Tables, name: string, e: Editable): Options {
    map k | k in (set x | x in t.known) + e.options.Keys && (k in t.known ==> IsWritten(t, name, e, k)) ::
      if k in t.known then Switch(Value(e.options, k)) else e.options[k]
  }

  function Saved(t: Tables, e: Editable): Role {
    var name := Trim(e.name);
    var fixed := name == "default" || name == "public";
    var options := WrittenOptions(t, name, e);
    var users := if fixed then [] else Clean(e.users);
    Role(name, if options == map[] then None else Some(options), if fixed then [] else Clean(e.groups),
         if users == [] then None else Some(users))
  }

  /** The known options that are written. */
  method WriteKnown(t: Tables, name: string, e: Editable) returns (options: Options)
    requires Usable(t)
    ensures options == map k | k in t.known && IsWritten(t, name, e, k) :: Switch(Value(e.options, k))
  {
    var defaults := RoleOptionDefaults(t, name);
    defaults := defaults[MCP := if CHAT in e.options then On(e.options[CHAT]) else defaults[CHAT]];
    DefaultsAreUnsaid(t, name, e, defaults);
    hide Usable, Unsaid, On;
    options := map[];
    for i := 0 to |t.known|
      invariant forall k :: k in options <==> k in t.known[..i] && IsWritten(t, name, e, k)
      invariant forall k :: k in options ==> options[k] == Switch(Value(e.options, k))
    {
      var k := t.known[i];
      assert t.known[..i + 1] == t.known[..i] + [k];
      var value := k in e.options && On(e.options[k]);
      if k in e.explicit || value != defaults[k] {
        options := options[k := Switch(value)];
      }
    }
    assert t.known[..|t.known|] == t.known;
  }

  lemma DefaultsAreUnsaid(t: Tables, name: string, e: Editable, defaults: map<string, bool>)
    requires Usable(t)
    requires var all := DefaultsOf(t, name);
             defaults == all[MCP := if CHAT in e.options then On(e.options[CHAT]) else all[CHAT]]
    ensures forall k :: k in t.known ==> k in defaults && defaults[k] == Unsaid(t, name, e.options, k)
  {
  }

  method SerializeRole(t: Tables, e: Editable) returns (r: Role)
    requires Usable(t)
    ensures r == Saved(t, e)
  {
    hide IsWritten, Usable, Trim, Clean, Value;
    var name := Trim(e.name);
    var fixed := name == "default" || name == "public";
    var users := if fixed then [] else Clean(e.users);
    var known := WriteKnown(t, name, e);
    var options := known;
    var left := e.options.Keys;
    while left != {}
      invariant left <= e.options.Keys
      invariant forall k :: k in options <==> k in known || (k in e.options && k !in left && k !in t.known)
      invariant forall k :: k in options ==> options[k] == if k in known then known[k] else e.options[k]
      decreases left
    {
      var k :| k in left;
      if k !in t.known {
        options := options[k := e.options[k]];
      }
      left := left - {k};
    }
    assert options == WrittenOptions(t, name, e);
    r := Role(name, if options == map[] then None else Some(options), if fixed then [] else Clean(e.groups),
              if users == [] then None else Some(users));
  }

  /** What a saved role is : its name trimmed ; the members, but for the roles default and public, which never
      have any, left out when there is none ; the options that are written, left out when none is. */
  lemma SavedIs(t: Tables, e: Editable)
    ensures var r, name := Saved(t, e), Trim(e.name);
            && r.name == name
            && r.options == (if WrittenOptions(t, name, e) == map[] then None else Some(WrittenOptions(t, name, e)))
            && (name in {"default", "public"} ==> r.groups == [] && r.users == None)
            && (name !in {"default", "public"} ==>
                  r.groups == Clean(e.groups) && r.users == if Clean(e.users) == [] then None else Some(Clean(e.users)))
  {
    hide Trim, WrittenOptions, Clean;
  }

  /** Which options are written : those the file spelled out, those that differ from what leaving them out
      means (what allowChat is for allowMcp), and those that are not known. */
  lemma WrittenAre(t: Tables, name: string, e: Editable, k: string)
    requires Usable(t)
    ensures k in WrittenOptions(t, name, e) <==>
            if k !in t.known then k in e.options
            else
              k in e.explicit
              || (k in e.options && On(e.options[k])) !=
                 (if k == "allowMcp" && "allowChat" in e.options then On(e.options["allowChat"])
                  else var d := if k == "allowMcp" then "allowChat" else k;
                       if d in t.adminByDefault then name == "admin" else d in t.onByDefault)
    ensures k in WrittenOptions(t, name, e) ==>
            WrittenOptions(t, name, e)[k] ==
            if k in t.known then Switch(k in e.options && On(e.options[k])) else e.options[k]
  {
  }

  /** A role read and saved untouched gets no option it did not have, but for API tokens when the extended
      expiry gave them : a switch that shows its default is not written out. */
  lemma UntouchedIsSaved(t: Tables, r: Role, k: string)
    requires Usable(t) && Trimmed(r.name)
    ensures var stored, e := StoredOptions(r), Loaded(t, r);
            var saved := StoredOptions(Saved(t, e));
            && "extendedTokenExpiration" in e.options
            && (k in saved <==> k in stored || (k == "allowApiTokens" && On(e.options["extendedTokenExpiration"])))
            && (k in stored ==> saved[k] == if k in t.known then Switch(On(stored[k])) else stored[k])
  {
    NamesDiffer();
    var stored, e := StoredOptions(r), Loaded(t, r);
    ShownIs(t, r.name, stored, k);
    ShownIs(t, r.name, stored, CHAT);
    ShownIs(t, r.name, stored, EXTENDED);
    WrittenAre(t, r.name, e, k);
    TrimIsTrimmed(r.name);
    SavedOptionsAre(t, e);
    hide Shown, Materialized, Followed, Saved, Trim, WrittenOptions, IsWritten;
  }

  // ─── saving changes no switch ────────────────────────────────────────────────

  /** An editable role has a switch for every option : a role loaded does, and edits only turn them. */
  ghost predicate Complete(t: Tables, e: Editable) {
    forall k :: k in t.known ==> k in e.options
  }

  lemma LoadedIsComplete(t: Tables, r: Role)
    requires Usable(t)
    ensures Complete(t, Loaded(t, r))
  {
    ShownIs(t, r.name, StoredOptions(r), CHAT);
  }

  /** The switches as shown : a known option on or off, any other as written. */
  function Switches(t: Tables, options: Options): Options {
    map k | k in options :: if k in t.known then Switch(On(options[k])) else options[k]
  }

  /** extendedTokenExpiration is kept under allowApiTokens, or the yaml spells allowApiTokens out. */
  predicate TokensKept(e: Editable) {
    Value(e.options, EXTENDED) && !Value(e.options, API_TOKENS) ==> API_TOKENS in e.explicit
  }

  lemma SavedOptionsAre(t: Tables, e: Editable)
    ensures StoredOptions(Saved(t, e)) == WrittenOptions(t, Trim(e.name), e)
  {
    hide Trim, WrittenOptions, Clean;
  }

  /** One option, read back : as it was, but for API tokens when the extended expiry alone is on. */
  lemma OptionReadsBack(t: Tables, e: Editable, k: string)
    requires Usable(t) && Complete(t, e) && k in t.known
    ensures var back := Loaded(t, Saved(t, e)).options;
            k in back && back[k] == Switch(if k == API_TOKENS && !TokensKept(e) then true else Value(e.options, k))
  {
    NamesDiffer();
    var name := Trim(e.name);
    var stored := WrittenOptions(t, name, e);
    SavedOptionsAre(t, e);
    ShownIs(t, name, stored, k);
  }

  lemma OthersReadBack(t: Tables, e: Editable)
    requires Usable(t) && Complete(t, e)
    ensures var back := Loaded(t, Saved(t, e)).options;
            back.Keys == e.options.Keys && forall k :: k in back && k !in t.known ==> back[k] == e.options[k]
  {
    var name := Trim(e.name);
    var stored := WrittenOptions(t, name, e);
    SavedOptionsAre(t, e);
    ShownIs(t, name, stored, CHAT);
    hide Shown, Followed, Materialized, IsWritten;
    forall k | k in e.options && k !in t.known ensures k in stored && stored[k] == e.options[k] {
    }
    forall k | k in e.options && k !in t.known ensures Shown(t, name, stored)[k] == e.options[k] {
      ShownIs(t, name, stored, k);
    }
    assert stored.Keys <= e.options.Keys;
  }

  /** Reading a saved role back shows every switch as it was, unknown flags included, whatever its new
      name, exactly when the extended expiry is kept under API tokens. */
  lemma SavingKeepsSwitchesExactly(t: Tables, e: Editable)
    requires Usable(t) && Complete(t, e)
    ensures Loaded(t, Saved(t, e)).options == Switches(t, e.options) <==> TokensKept(e)
  {
    hide Loaded, Saved, Value;
    var back := Loaded(t, Saved(t, e)).options;
    OthersReadBack(t, e);
    OptionReadsBack(t, e, API_TOKENS);
    forall k | k in t.known
      ensures k in back && back[k] == Switch(if k == API_TOKENS && !TokensKept(e) then true else Value(e.options, k))
    {
      OptionReadsBack(t, e, k);
    }
    SwitchesAre(t, e);
    TokensAre(e);
  }

  lemma SwitchesAre(t: Tables, e: Editable)
    requires Usable(t) && Complete(t, e)
    ensures Switches(t, e.options).Keys == e.options.Keys
    ensures forall k :: k in t.known ==> k in e.options && Switches(t, e.options)[k] == Switch(Value(e.options, k))
  {
  }

  lemma TokensAre(e: Editable)
    ensures !TokensKept(e) ==> !Value(e.options, API_TOKENS)
  {
  }

  /** What was written is spelled out then, and what was not is as leaving it out means. */
  lemma SameWritten(t: Tables, name: string, e: Editable, back: Editable)
    requires Usable(t) && Complete(t, e)
    requires back.options == Switches(t, e.options) && back.explicit == WrittenOptions(t, name, e).Keys
    ensures WrittenOptions(t, name, back) == WrittenOptions(t, name, e)
  {
    SwitchesAre(t, e);
    forall k | k in t.known
      ensures Value(back.options, k) == Value(e.options, k) && IsWritten(t, name, back, k) == IsWritten(t, name, e, k)
    {
      assert Unsaid(t, name, back.options, k) == Unsaid(t, name, e.options, k);
    }
  }

  // ─── the members ─────────────────────────────────────────────────────────────

  datatype Member = Member(provider: string, name: string)

  const ENTRA_TYPE := "azuread"
  const ENTRA_PREFIX := "entraid"

  function ProviderPrefix(provider: string): string {
    if provider == ENTRA_TYPE then ENTRA_PREFIX else provider
  }

  function ParseProviderEntry(s: string): Member {
    match IndexOf(s, "/")
    case None => Member("local", s)
    case Some(at) =>
      var provider := s[..at];
      Member(if provider == ENTRA_PREFIX then ENTRA_TYPE else provider, s[at + 1..])
  }

  function FormatProviderEntry(m: Member): string {
    ProviderPrefix(m.provider) + "/" + m.name
  }

  function Parsed(entries: seq<string>): seq<Member> {
    seq(|entries|, i requires 0 <= i < |entries| => ParseProviderEntry(entries[i]))
  }

  /** The members as they are written : the nameless dropped, the names trimmed. */
  function Clean(members: seq<Member>): seq<string> {
    if members == [] then []
    else
      var m := members[|members| - 1];
      Clean(members[..|members| - 1]) +
      if Trim(m.name) == "" then [] else [FormatProviderEntry(m.(name := Trim(m.name)))]
  }

  predicate NoSlash(s: string) {
    '/' !in s
  }

  /** A member written is the member read, whatever its name ; entraid is read as azuread. */
  lemma EntryReadsBack(m: Member)
    requires NoSlash(m.provider)
    ensures ParseProviderEntry(FormatProviderEntry(m)) ==
            Member(if m.provider == ENTRA_PREFIX then ENTRA_TYPE else m.provider, m.name)
  {
    var p := ProviderPrefix(m.provider);
    var s := FormatProviderEntry(m);
    assert OccursAt(s, "/", |p|);
    var at := IndexOf(s, "/").value;
    if at < |p| {
      assert s[at] == p[at] == '/';
      assert p[at] in p;
      NoSlashInPrefix(m.provider);
    }
    assert s[..|p|] == p && s[|p| + 1..] == m.name;
  }

  lemma NoSlashInPrefix(provider: string)
    requires NoSlash(provider)
    ensures NoSlash(ProviderPrefix(provider))
  {
  }

  lemma SlashFound(s: string)
    ensures IndexOf(s, "/").Some? ==> '/' in s
  {
    var at := IndexOf(s, "/");
    if at.Some? {
      assert s[at.value..at.value + 1] == [s[at.value]];
    }
  }

  /** A member without a provider is a local one. */
  lemma PlainNameIsLocal(s: string)
    requires NoSlash(s)
    ensures ParseProviderEntry(s) == Member("local", s)
  {
    SlashFound(s);
  }

  /** The members that have a name, spaces aside, in order, with their names trimmed ; entraid is azuread. */
  function Named(members: seq<Member>): seq<Member> {
    if members == [] then []
    else
      var m := members[|members| - 1];
      Named(members[..|members| - 1]) +
      if Trim(m.name) == "" then []
      else [Member(if m.provider == "entraid" then "azuread" else m.provider, Trim(m.name))]
  }

  /** Members written and read back are those that have a name. */
  lemma {:induction false} MembersReadBack(members: seq<Member>)
    requires forall i :: 0 <= i < |members| ==> NoSlash(members[i].provider)
    ensures Parsed(Clean(members)) == Named(members)
  {
    hide Trim, FormatProviderEntry, ParseProviderEntry;
    if members != [] {
      var front, m := members[..|members| - 1], members[|members| - 1];
      MembersReadBack(front);
      var written := m.(name := Trim(m.name));
      EntryReadsBack(written);
      if Trim(m.name) == "" {
        assert Clean(front) + [] == Clean(front) && Named(front) + [] == Named(front);
      } else {
        assert Clean(members) == Clean(front) + [FormatProviderEntry(written)];
      }
    }
  }

  lemma {:induction false} CleanJoins(a: seq<Member>, b: seq<Member>)
    ensures Clean(a + b) == Clean(a) + Clean(b)
  {
    hide Trim, FormatProviderEntry;
    if b == [] {
      assert a + b == a;
    } else {
      assert (a + b)[..|a + b| - 1] == a + b[..|b| - 1];
      CleanJoins(a, b[..|b| - 1]);
    }
  }

  lemma CleanOne(m: Member)
    ensures Clean([m]) == if Trim(m.name) == "" then [] else [FormatProviderEntry(m.(name := Trim(m.name)))]
  {
    assert [m][..0] == [];
    assert Clean([]) == [];
  }

  /** An entry as it is written stays so when it is read and written again. */
  lemma EntryWrittenAgain(m: Member)
    requires NoSlash(m.provider) && Trim(m.name) != ""
    ensures var entry := FormatProviderEntry(m.(name := Trim(m.name))); Clean([ParseProviderEntry(entry)]) == [entry]
  {
    hide Trim, Clean, ParseProviderEntry;
    var written := m.(name := Trim(m.name));
    EntryReadsBack(written);
    TrimIsTrimmed(m.name);
    TrimIsTrimmed(Trim(m.name));
    CleanOne(ParseProviderEntry(FormatProviderEntry(written)));
  }

  lemma {:induction false} CleanAgain(members: seq<Member>)
    requires forall i :: 0 <= i < |members| ==> NoSlash(members[i].provider)
    ensures Clean(Parsed(Clean(members))) == Clean(members)
  {
    hide Trim, FormatProviderEntry, ParseProviderEntry;
    if members != [] {
      var front, m := members[..|members| - 1], members[|members| - 1];
      CleanAgain(front);
      if Trim(m.name) != "" {
        var entry := FormatProviderEntry(m.(name := Trim(m.name)));
        EntryWrittenAgain(m);
        assert Clean(members) == Clean(front) + [entry];
        assert Parsed(Clean(front) + [entry]) == Parsed(Clean(front)) + [ParseProviderEntry(entry)];
        CleanJoins(Parsed(Clean(front)), [ParseProviderEntry(entry)]);
      } else {
        assert Clean(front) + [] == Clean(front);
      }
    }
  }

  predicate Fixed(name: string) {
    name == "default" || name == "public"
  }

  /** What a saved role is made of. */
  lemma SavedAlike(t: Tables, e: Editable, e': Editable)
    requires Trim(e.name) == Trim(e'.name)
    requires WrittenOptions(t, Trim(e.name), e) == WrittenOptions(t, Trim(e.name), e')
    requires !Fixed(Trim(e.name)) ==> Clean(e.groups) == Clean(e'.groups) && Clean(e.users) == Clean(e'.users)
    ensures Saved(t, e) == Saved(t, e')
  {
    hide Trim, WrittenOptions, Clean;
  }

  lemma LoadedIs(t: Tables, e: Editable)
    requires CHAT in t.known && EXTENDED in t.known
    ensures var back, name := Loaded(t, Saved(t, e)), Trim(e.name);
            && back.name == name && back.explicit == WrittenOptions(t, name, e).Keys
            && (!Fixed(name) ==> back.groups == Parsed(Clean(e.groups)) && back.users == Parsed(Clean(e.users)))
  {
    hide Trim, WrittenOptions, Clean, Shown;
    SavedOptionsAre(t, e);
  }

  /** And saving again writes the same role : its name, its options, its members. */
  lemma SavingAgainWritesTheSame(t: Tables, e: Editable)
    requires Usable(t) && Complete(t, e) && TokensKept(e)
    requires forall i :: 0 <= i < |e.groups| ==> NoSlash(e.groups[i].provider)
    requires forall i :: 0 <= i < |e.users| ==> NoSlash(e.users[i].provider)
    ensures Saved(t, Loaded(t, Saved(t, e))) == Saved(t, e)
  {
    hide Loaded, Saved, WrittenOptions, Trim, Clean, Parsed, Switches, TokensKept, Complete;
    var back := Loaded(t, Saved(t, e));
    SavingKeepsSwitchesExactly(t, e);
    LoadedIs(t, e);
    TrimIsTrimmed(e.name);
    TrimIsTrimmed(Trim(e.name));
    CleanAgain(e.groups);
    CleanAgain(e.users);
    SameWritten(t, Trim(e.name), e, back);
    SavedAlike(t, back, e);
  }

  /** The options that are on when a role does not say, and those that are on then for the admin alone. */
  lemma DefaultsAre(name: string, k: string)
    ensures Default(ROLE_TABLES, name, k) <==>
            || k in {"allowFormDesign", "allowPlaybookDesign", "allowWorkflowDesign", "allowInventoryDesign",
                     "allowVarsFileDesign", "allowVerboseMode", "showJobs", "showDebugButtons", "showExtravars",
                     "showArtifacts", "allowStoredJobs", "allowFileUploads", "allowJobDeletion", "allowPlannedJobs",
                     "allowLogin", "allowChat", "allowMcp"}
            || (name == "admin"
                && k in {"showSettings", "showDesigner", "showLogs", "allowBackupOps", "allowJobRelaunch",
                         "showAllJobLogs", "allowScheduledJobs"})
  {
    AdminApart(k);
  }

  /** No option is in both tables. */
  lemma AdminApart(k: string)
    ensures k in ROLE_TABLES.adminByDefault ==> k !in ROLE_TABLES.onByDefault
  {
    var on, admin := ROLE_TABLES.onByDefault, ROLE_TABLES.adminByDefault;
    if k in admin {
      forall i | 0 <= i < |on| ensures on[i] != k {
      }
    }
  }

  lemma KnownHasTheNames()
    ensures CHAT in ROLE_TABLES.known && MCP in ROLE_TABLES.known
    ensures API_TOKENS in ROLE_TABLES.known && EXTENDED in ROLE_TABLES.known
  {
  }

  lemma OnByDefaultIsKnown(k: string)
    requires k in ROLE_TABLES.onByDefault
    ensures k in ROLE_TABLES.known
  {
  }

  lemma AdminByDefaultIsKnown(k: string)
    requires k in ROLE_TABLES.adminByDefault
    ensures k in ROLE_TABLES.known
  {
  }

  lemma TokensAreOffByDefault()
    ensures API_TOKENS !in ROLE_TABLES.onByDefault && API_TOKENS !in ROLE_TABLES.adminByDefault
  {
    var on, admin := ROLE_TABLES.onByDefault, ROLE_TABLES.adminByDefault;
    assert |API_TOKENS| == 14;
    assert forall i :: 0 <= i < |on| ==> |on[i]| != 14;
    assert forall i :: 0 <= i < |admin| ==> |admin[i]| != 14 || admin[i][5] != 'A';
  }

  /** The options there are do meet what the rules need. */
  lemma RoleTablesAreUsable()
    ensures Usable(ROLE_TABLES)
  {
    KnownHasTheNames();
    forall k | k in ROLE_TABLES.onByDefault ensures k in ROLE_TABLES.known {
      OnByDefaultIsKnown(k);
    }
    forall k | k in ROLE_TABLES.adminByDefault ensures k in ROLE_TABLES.known {
      AdminByDefaultIsKnown(k);
    }
    TokensAreOffByDefault();
  }

  // ─── a switch that is not kept ───────────────────────────────────────────────

  /** A role whose file turns the extended expiry on and leaves API tokens out. */
  const EXTENDED_ALONE := Role("operator", Some(map[EXTENDED := Switch(true)]), [], None)

  /** Read, both are on ; with API tokens turned off and saved, they are on again when read back. */
  lemma TokensComeBack()
    ensures Usable(ROLE_TABLES)
    ensures var read := Loaded(ROLE_TABLES, EXTENDED_ALONE);
            var edited := read.(options := read.options[API_TOKENS := Switch(false)]);
            && Value(read.options, EXTENDED) && Value(read.options, API_TOKENS)
            && Complete(ROLE_TABLES, edited) && !TokensKept(edited)
            && Value(Loaded(ROLE_TABLES, Saved(ROLE_TABLES, edited)).options, API_TOKENS)
  {
    RoleTablesAreUsable();
    TokensComeBackIn(ROLE_TABLES);
  }

  lemma TokensComeBackIn(t: Tables)
    requires Usable(t)
    ensures var read := Loaded(t, EXTENDED_ALONE);
            var edited := read.(options := read.options[API_TOKENS := Switch(false)]);
            && Value(read.options, EXTENDED) && Value(read.options, API_TOKENS)
            && Complete(t, edited) && !TokensKept(edited)
            && Value(Loaded(t, Saved(t, edited)).options, API_TOKENS)
  {
    hide Saved, Shown, IsWritten, Materialized, Followed;
    NamesDiffer();
    var stored: Options := map[EXTENDED := Switch(true)];
    var read := Loaded(t, EXTENDED_ALONE);
    ShownIs(t, "operator", stored, EXTENDED);
    ShownIs(t, "operator", stored, API_TOKENS);
    assert read.options == Shown(t, "operator", stored) && read.explicit == {EXTENDED};
    var edited := read.(options := read.options[API_TOKENS := Switch(false)]);
    assert Complete(t, edited) && !TokensKept(edited);
    OptionReadsBack(t, edited, API_TOKENS);
  }
}
