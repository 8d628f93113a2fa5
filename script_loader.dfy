/** The script set: `get_sql_scripts` turns a directory listing into a dict from
    file name to file content, built in ascending name order. The directory
    listing and the readable files are inputs: `files` maps each name that can be
    opened and read as text to its content. */
module ScriptLoader {
  import opened Wrappers
  import opened NameOrder

  /** One `(name, content)` item of the script dict. */
  datatype Script = Script(name: string, body: string)

  /** A Python dict from script name to content: `names` holds the keys in
      insertion order, `bodies` the values. */
  datatype ScriptMap = ScriptMap(names: seq<string>, bodies: map<string, string>) {

    ghost predicate Valid() {
      && (forall i, j :: 0 <= i < j < |names| ==> names[i] != names[j])
      && (forall n :: n in bodies <==> n in names)
    }

    /** `d[name] = body`: a new key goes to the end, an existing key keeps its place. */
    function Put(name: string, body: string): (m: ScriptMap)
      requires Valid()
      ensures m.Valid()
      ensures |names| <= |m.names| && m.names[..|names|] == names
      ensures m.bodies.Keys == bodies.Keys + {name}
      ensures m.bodies[name] == body
      ensures forall n :: n in bodies && n != name ==> m.bodies[n] == bodies[n]
    {
      var m := ScriptMap(if name in bodies then names else names + [name], bodies[name := body]);
      assert m.bodies.Keys == bodies.Keys + {name};
      assert name !in bodies ==> m.names[..|names|] == names;
      if name in bodies then m else AppendKey(name, body); m
    }

    /** A key not yet present goes after all present keys and stays distinct from them. */
    lemma AppendKey(name: string, body: string)
      requires Valid() && name !in bodies
      ensures ScriptMap(names + [name], bodies[name := body]).Valid()
    {
      var m := ScriptMap(names + [name], bodies[name := body]);
      assert forall n :: n in m.names <==> n in names || n == name;
    }

    /** `d.items()`, in insertion order. */
    function Items(): seq<Script>
      requires Valid()
    {
      seq(|names|, i requires 0 <= i < |names| => Script(names[i], bodies[names[i]]))
    }
  }

  const Suffix := ".sql"

  /** `name.endswith(".sql")` */
  predicate IsSqlName(name: string) {
    |name| >= |Suffix| && name[|name| - |Suffix|..] == Suffix
  }

  /** A name ends in `.sql` exactly when it is some stem followed by `.sql`. */
  lemma SqlNameIsStemAndSuffix(name: string)
    ensures IsSqlName(name) <==> exists stem :: name == stem + Suffix
  {
    if IsSqlName(name) {
      assert name == name[..|name| - |Suffix|] + Suffix;
    }
    if exists stem :: name == stem + Suffix {
      var stem :| name == stem + Suffix;
      assert name[|stem|..] == Suffix;
    }
  }

  /** `get_sql_scripts`: walks the sorted listing, keeps the `.sql` names and reads
      each into the dict. Opening a `.sql` name that is not readable raises, which
      ends the load: `Failure` names the first such file in sorted order. */
  method LoadScripts(listing: seq<string>, files: map<string, string>) returns (r: Result<ScriptMap, string>)
    ensures r.Success? <==> forall n :: n in listing && IsSqlName(n) ==> n in files
    ensures r.Success? ==> Loaded(r.value, listing, files)
    ensures r.Failure? ==>
      && r.error in listing && IsSqlName(r.error) && r.error !in files
      && (forall n :: n in listing && IsSqlName(n) && n !in files ==> AtMost(r.error, n))
  {
    var scripts := ScriptMap([], map[]);
    var names := SortNames(listing);
    SortNamesKeepsNames(listing);
    var i := 0;
    while i < |names|
      invariant 0 <= i <= |names|
      invariant LoadedUpTo(scripts, names, i, files)
    {
      var name := names[i];
      if IsSqlName(name) && name !in files {
        UnreadableIsLeast(scripts, listing, names, i, files);
        return Failure(name);
      }
      LoadStep(scripts, names, i, files);
      if IsSqlName(name) {
        scripts := scripts.Put(name, files[name]);
      }
      i := i + 1;
    }
    LoadedAll(scripts, listing, names, files);
    return Success(scripts);
  }

  /** The dict `get_sql_scripts` returns: its keys are exactly the `.sql` names of
      the listing, strictly ascending, and each maps to its file's content. */
  ghost predicate Loaded(scripts: ScriptMap, listing: seq<string>, files: map<string, string>) {
    && scripts.Valid()
    && StrictlyAscending(scripts.names)
    && (forall n :: n in scripts.names <==> n in listing && IsSqlName(n))
    && (forall n :: n in scripts.bodies ==> n in files && scripts.bodies[n] == files[n])
  }

  /** What the run loop iterates over: the items of a loaded dict are the `.sql`
      names of the listing, each once and in ascending order, each with its file's
      content. */
  lemma LoadedItems(scripts: ScriptMap, listing: seq<string>, files: map<string, string>)
    requires Loaded(scripts, listing, files)
    ensures var items := scripts.Items();
      && (forall i, j :: 0 <= i < j < |items| ==> Below(items[i].name, items[j].name))
      && (forall n :: n in listing && IsSqlName(n) <==> exists i :: 0 <= i < |items| && items[i].name == n)
      && (forall i :: 0 <= i < |items| ==> items[i].name in files && items[i].body == files[items[i].name])
  {
    var items := scripts.Items();
    forall n | n in listing && IsSqlName(n) ensures exists i :: 0 <= i < |items| && items[i].name == n {
      var i :| 0 <= i < |scripts.names| && scripts.names[i] == n;
      assert items[i].name == n;
    }
  }

  /** After the first `i` names of the sorted listing: the dict holds exactly the
      `.sql` names among them, in strictly ascending order, each with its file's
      content. */
  ghost predicate LoadedUpTo(scripts: ScriptMap, names: seq<string>, i: nat, files: map<string, string>) {
    && i <= |names|
    && scripts.Valid()
    && StrictlyAscending(scripts.names)
    && (forall n :: n in scripts.bodies <==> n in names[..i] && IsSqlName(n))
    && (forall n :: n in scripts.bodies ==> n in files && scripts.bodies[n] == files[n])
  }

  /** One turn of the loader's loop keeps LoadedUpTo. */
  lemma LoadStep(scripts: ScriptMap, names: seq<string>, i: nat, files: map<string, string>)
    requires Sorted(names) && i < |names| && LoadedUpTo(scripts, names, i, files)
    requires IsSqlName(names[i]) ==> names[i] in files
    ensures LoadedUpTo(if IsSqlName(names[i]) then scripts.Put(names[i], files[names[i]]) else scripts, names, i + 1, files)
  {
    assert names[..i + 1] == names[..i] + [names[i]];
    if IsSqlName(names[i]) {
      LoadSqlName(scripts, names, i, files);
    }
  }

  /** Reading a `.sql` name into the dict keeps LoadedUpTo one name further on. */
  lemma LoadSqlName(scripts: ScriptMap, names: seq<string>, i: nat, files: map<string, string>)
    requires Sorted(names) && i < |names| && LoadedUpTo(scripts, names, i, files)
    requires IsSqlName(names[i]) && names[i] in files
    ensures LoadedUpTo(scripts.Put(names[i], files[names[i]]), names, i + 1, files)
  {
    var name := names[i];
    assert names[..i + 1] == names[..i] + [name];
    if name in scripts.bodies {
      assert scripts.Put(name, files[name]) == scripts;
    } else {
      LoadNewName(scripts, names, i, files);
    }
  }

  /** A `.sql` name met for the first time goes to the end of the dict. */
  lemma LoadNewName(scripts: ScriptMap, names: seq<string>, i: nat, files: map<string, string>)
    requires Sorted(names) && i < |names| && LoadedUpTo(scripts, names, i, files)
    requires IsSqlName(names[i]) && names[i] in files && names[i] !in scripts.bodies
    ensures LoadedUpTo(ScriptMap(scripts.names + [names[i]], scripts.bodies[names[i] := files[names[i]]]), names, i + 1, files)
  {
    var name := names[i];
    var m := ScriptMap(scripts.names + [name], scripts.bodies[name := files[name]]);
    scripts.AppendKey(name, files[name]);
    AppendKeepsAscending(scripts.names, names, i);
    assert names[..i + 1] == names[..i] + [name];
    forall n ensures n in m.bodies <==> n in names[..i + 1] && IsSqlName(n) {
      assert n in names[..i + 1] <==> n in names[..i] || n == name;
    }
  }

  /** A loader that reached the end of the listing produced the promised dict. */
  lemma LoadedAll(scripts: ScriptMap, listing: seq<string>, names: seq<string>, files: map<string, string>)
    requires (forall n :: n in names <==> n in listing) && LoadedUpTo(scripts, names, |names|, files)
    ensures forall n :: n in listing && IsSqlName(n) ==> n in files
    ensures forall n :: n in scripts.names <==> n in listing && IsSqlName(n)
  {
    assert names[..|names|] == names;
  }

  /** The first `.sql` name in the sorted listing that cannot be read is the least
      unreadable `.sql` name of the listing. */
  lemma UnreadableIsLeast(scripts: ScriptMap, listing: seq<string>, names: seq<string>, i: nat, files: map<string, string>)
    requires Sorted(names) && (forall n :: n in names <==> n in listing)
    requires i < |names| && LoadedUpTo(scripts, names, i, files)
    ensures names[i] in listing
    ensures forall n :: n in listing && IsSqlName(n) && n !in files ==> AtMost(names[i], n)
  {
    forall m | 0 <= m < i ensures IsSqlName(names[m]) ==> names[m] in files {
      assert names[m] in names[..i];
    }
    forall n | n in listing && IsSqlName(n) && n !in files ensures AtMost(names[i], n) {
      var m :| 0 <= m < |names| && names[m] == n;
    }
  }

  /** A sorted walk appends a key that is new only after all keys seen so far. */
  lemma AppendKeepsAscending(keys: seq<string>, names: seq<string>, i: nat)
    requires Sorted(names) && i < |names|
    requires StrictlyAscending(keys)
    requires forall k :: k in keys ==> k in names[..i]
    requires names[i] !in keys
    ensures StrictlyAscending(keys + [names[i]])
  {
    forall j | 0 <= j < |keys| ensures Below(keys[j], names[i]) {
      assert keys[j] in names[..i];
      var m :| 0 <= m < i && names[m] == keys[j];
    }
  }
}
