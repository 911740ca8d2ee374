/** What Pass A looks for in a compose file: which keys an `environment` block sets, and what is forbidden. */
module ComposePolicyKeys {
  import opened ComposePolicy
  import opened Text

  // ---------- the keys of a block ----------

  /** A list item sets what stands in front of its first `=`, or all of it, without the whitespace around. */
  ghost predicate SetsKey(text: string, key: string) {
    if '=' in text then exists front, value | text == front + "=" + value && '=' !in front :: key == Strip(front)
    else key == Strip(text)
  }

  /** One key per string item, in order. */
  ghost predicate ListsKeys(items: seq<EnvItem>, keys: seq<string>) {
    if items == [] then keys == []
    else if items[0].Str? then
      keys != [] && SetsKey(items[0].text, keys[0]) && ListsKeys(items[1..], keys[1..])
    else ListsKeys(items[1..], keys)
  }

  ghost predicate Sets(environment: Environment, key: string) {
    match environment
    case Mapping(keys) => key in keys
    case Items(items) => exists k | 0 <= k < |items| :: items[k].Str? && SetsKey(items[k].text, key)
    case _ => false
  }

  lemma ItemSets(text: string)
    ensures SetsKey(text, ItemKey(text))
  {
    hide Strip, Find;
    FindChar(text, '=');
    var k := Find(text, "=");
    if k != -1 {
      assert text == text[..k] + "=" + text[k + 1..];
    }
  }

  /** An item sets one key. */
  lemma OneKey(text: string, key: string)
    ensures SetsKey(text, key) <==> key == ItemKey(text)
  {
    hide Strip, Find;
    ItemSets(text);
    if SetsKey(text, key) && '=' in text {
      var front, value :| text == front + "=" + value && '=' !in front && key == Strip(front);
      FindCharIs(front, '=', value);
      assert text[..|front|] == front;
    } else {
      FindChar(text, '=');
    }
  }

  lemma {:induction false} KeysAreListed(items: seq<EnvItem>)
    ensures ListsKeys(items, ItemKeys(items))
  {
    hide ItemKey, SetsKey;
    if items == [] {
    } else {
      KeysAreListed(items[1..]);
      if items[0].Str? {
        ItemSets(items[0].text);
        assert ItemKeys(items)[1..] == ItemKeys(items[1..]);
      }
    }
  }

  lemma {:induction false} ItemKeysIn(items: seq<EnvItem>, key: string)
    ensures key in ItemKeys(items) <==> exists k | 0 <= k < |items| :: items[k].Str? && key == ItemKey(items[k].text)
  {
    hide ItemKey;
    if items == [] {
    } else {
      ItemKeysIn(items[1..], key);
      assert forall k | 0 <= k < |items| - 1 :: items[1..][k] == items[k + 1];
      assert forall k | 1 <= k < |items| :: items[k] == items[1..][k - 1];
    }
  }

  lemma SetsIff(environment: Environment, key: string)
    ensures key in EnvKeys(environment) <==> Sets(environment, key)
  {
    hide ItemKey, SetsKey, ItemKeys;
    if environment.Items? {
      var items := environment.items;
      ItemKeysIn(items, key);
      forall k | 0 <= k < |items| && items[k].Str?
        ensures SetsKey(items[k].text, key) <==> key == ItemKey(items[k].text)
      {
        OneKey(items[k].text, key);
      }
    }
  }

  // ---------- what is reported ----------

  predicate Forbidden(key: string) {
    || key in ["QDRANT_URL", "DATABASE_URL", "POSTGRES_URL", "POSTGRES_HOST", "POSTGRES_PORT", "POSTGRES_DB",
               "POSTGRES_USER", "POSTGRES_PASSWORD"]
    || "AP_POSTGRES_" <= key
  }

  /** A service outside the allowlist has `env_file`, or its `environment` sets a forbidden key. */
  ghost predicate Breaks(v: Violation, doc: Doc, allowlist: set<string>) {
    && doc.Doc? && doc.services.Services?
    && exists s | s in doc.services.list && s.body.Body? && s.name !in allowlist && s.name == v.service ::
         match v
         case EnvFile(_) => s.body.hasEnvFile
         case ForbiddenKey(_, key) => Forbidden(key) && Sets(s.body.environment, key)
  }

  lemma ForbiddenIff(key: string)
    ensures IsForbiddenKey(key) <==> Forbidden(key)
  {
  }

  lemma BreaksIff(v: Violation, doc: Doc, allowlist: set<string>)
    ensures Justified(v, doc, allowlist) <==> Breaks(v, doc, allowlist)
  {
    hide EnvKeys, Sets, IsForbiddenKey, Forbidden;
    if v.ForbiddenKey? {
      ForbiddenIff(v.key);
    }
    if doc.Doc? && doc.services.Services? {
      forall s <- doc.services.list
        ensures v.ForbiddenKey? && s.body.Body? ==>
                  (v.key in EnvKeys(s.body.environment) <==> Sets(s.body.environment, v.key))
      {
        if v.ForbiddenKey? && s.body.Body? {
          SetsIff(s.body.environment, v.key);
        }
      }
    }
  }

  /** `key=value` in the list of a scanned service is found under the name `key`. */
  lemma AssignedKeyBreaks(doc: Doc, allowlist: set<string>, s: Service, key: string, value: string)
    requires doc.Doc? && doc.services.Services? && s in doc.services.list && s.body.Body? && s.name !in allowlist
    requires s.body.environment.Items? && Str(key + "=" + value) in s.body.environment.items
    requires '=' !in key && Forbidden(Strip(key))
    ensures Breaks(ForbiddenKey(s.name, Strip(key)), doc, allowlist)
  {
    hide Strip, Forbidden;
    var items, text := s.body.environment.items, key + "=" + value;
    assert SetsKey(text, Strip(key)) by {
      assert text[|key|] == '=';
    }
    var k :| 0 <= k < |items| && items[k] == Str(text);
    assert Sets(s.body.environment, Strip(key));
  }

  // ---------- tool errors and includes ----------

  /** The files at which the scan gives up. */
  lemma BrokenIff(fs: FileSystem, allowlist: set<string>, path: Path)
    ensures !Fine(fs, allowlist, path) <==>
      || path !in fs
      || fs[path].Unreadable?
      || exists doc <- fs[path].docs ::
           || doc.NotADict?
           || (doc.Doc? && doc.services.BadServices?)
           || (doc.Doc? && doc.includes.NotAList?)
           || (doc.Doc? && doc.includes.Entries? && UnsupportedEntry in doc.includes.list)
           || (doc.Doc? && doc.services.Services? && exists s <- doc.services.list ::
                 s.body.Body? && s.name !in allowlist && s.body.environment == UnhandledShape)
  {
  }

  lemma IncludesIff(fs: FileSystem, from: Path, to: Path)
    ensures IncludesPath(fs, from, to) <==>
      && from in fs && fs[from].File?
      && exists doc <- fs[from].docs :: doc.Doc? && doc.includes.Entries? && Target(to) in doc.includes.list
  {
  }
}
