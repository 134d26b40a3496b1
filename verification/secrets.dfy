/**
 * The secret cache of the server (Server/secrets.js): a module-level map from
 * secret names to values, filled on first use from a JSON file (development)
 * or from Secret Manager (production), and emptied by `clearCache`.
 *
 * The loaders are parameters: `readFile` gives the value `require` returns
 * for a secrets file, `accessSecret` the text of a secret version.
 */
module Secrets {
  import opened Wrappers
  import Text

  /** A cached value: the object a JSON file parses to, or the UTF-8 text of a secret version. */
  datatype SecretValue = JsonObject(id: nat) | Text(text: string)

  /** JavaScript truthiness of a cached value: objects always, text when not empty. */
  predicate TruthyValue(v: SecretValue) {
    v.JsonObject? || v.text != ""
  }

  /** Where a value was loaded from. */
  datatype Source = File(fileName: string) | SecretManager(versionName: string)

  /** `projects/<projectName>/secrets/<secretName>/versions/latest`. */
  function SecretVersionName(projectName: string, secretName: string): string {
    "projects/" + projectName + "/secrets/" + secretName + "/versions/latest"
  }

  /** Reads the project and secret names back out of a version name whose two names contain no '/'. */
  function ParseVersionName(name: string): Option<(string, string)> {
    var parts := Text.Split(name, '/');
    if |parts| == 6 && parts[0] == "projects" && parts[2] == "secrets" && parts[4] == "versions" && parts[5] == "latest"
    then Some((parts[1], parts[3]))
    else None
  }

  /** The version name identifies its project and secret: different names never collide. */
  lemma VersionNameRoundTrip(projectName: string, secretName: string)
    requires '/' !in projectName && '/' !in secretName
    ensures ParseVersionName(SecretVersionName(projectName, secretName)) == Some((projectName, secretName))
  {
    var pieces := VersionNamePieces(projectName, secretName);
    NoSlashPieces(pieces, projectName, secretName);
    Text.JoinSplit(pieces, '/');
    ParseOfPieces(SecretVersionName(projectName, secretName), projectName, secretName);
  }

  lemma NoSlashPieces(pieces: seq<string>, projectName: string, secretName: string)
    requires '/' !in projectName && '/' !in secretName
    requires pieces == ["projects", projectName, "secrets", secretName, "versions", "latest"]
    ensures forall k :: 0 <= k < |pieces| ==> '/' !in pieces[k]
  {
    assert '/' !in "projects" && '/' !in "secrets" && '/' !in "versions" && '/' !in "latest";
    forall k | 0 <= k < |pieces|
      ensures '/' !in pieces[k]
    {
    }
  }

  lemma ParseOfPieces(name: string, projectName: string, secretName: string)
    requires Text.Split(name, '/') == ["projects", projectName, "secrets", secretName, "versions", "latest"]
    ensures ParseVersionName(name) == Some((projectName, secretName))
  {
  }

  /** The six pieces of a version name, joined by '/'. */
  lemma VersionNamePieces(projectName: string, secretName: string) returns (pieces: seq<string>)
    ensures pieces == ["projects", projectName, "secrets", secretName, "versions", "latest"]
    ensures Text.Join(pieces, '/') == SecretVersionName(projectName, secretName)
  {
    pieces := ["projects", projectName, "secrets", secretName, "versions", "latest"];
    JoinSix("projects", projectName, "secrets", secretName, "versions", "latest");
    assert "projects/" == "projects" + "/" && "/secrets/" == "/" + "secrets" + "/";
    assert "/versions/latest" == "/" + "versions" + "/" + "latest";
  }

  lemma JoinSix(a: string, b: string, c: string, d: string, e: string, f: string)
    ensures Text.Join([a, b, c, d, e, f], '/') == a + "/" + b + "/" + c + "/" + d + "/" + e + "/" + f
  {
    var s := [a, b, c, d, e, f];
    Text.JoinCons(e, [f], '/');
    assert s[4..] == [e, f] && s[4..] == [e] + [f];
    Text.JoinCons(d, s[4..], '/');
    assert s[3..] == [d] + s[4..];
    Text.JoinCons(c, s[3..], '/');
    assert s[2..] == [c] + s[3..];
    Text.JoinCons(b, s[2..], '/');
    assert s[1..] == [b] + s[2..];
    Text.JoinCons(a, s[1..], '/');
    assert s == [a] + s[1..];
    var ef := e + "/" + f;
    var def := d + "/" + ef;
    var cdef := c + "/" + def;
    SlashAssoc(a + "/" + b, c, def);
    SlashAssoc(a + "/" + b + "/" + c, d, ef);
    SlashAssoc(a + "/" + b + "/" + c + "/" + d, e, f);
    SlashAssoc(a, b, cdef);
  }

  lemma SlashAssoc(x: string, y: string, z: string)
    ensures x + "/" + (y + "/" + z) == x + "/" + y + "/" + z
  {
  }

  class SecretStore {
    /** `cache`: the values loaded so far. */
    var cache: map<string, SecretValue>
    /** `process.env.NODE_ENV === 'production'`. */
    const production: bool
    /** `config.gcp.projectName`. */
    const projectName: string

    constructor (production: bool, projectName: string)
      ensures cache == map[] && this.production == production && this.projectName == projectName
    {
      this.production := production;
      this.projectName := projectName;
      cache := map[];
    }

    /** A lookup that `get` answers from the cache. */
    predicate Hit(secretName: string)
      reads this
    {
      secretName in cache && TruthyValue(cache[secretName])
    }

    /** Where `get` loads a secret from on a miss. */
    function SourceOf(secretName: string): Source
      reads this
    {
      if production then SecretManager(SecretVersionName(projectName, secretName)) else File(secretName + ".json")
    }

    /**
     * `get(secretName)`: a truthy cached value is returned without loading;
     * otherwise the value is loaded, cached and returned.
     */
    method Get(secretName: string, readFile: string -> SecretValue, accessSecret: string -> string)
        returns (v: SecretValue, loadedFrom: Option<Source>)
      modifies this
      ensures old(Hit(secretName)) ==> v == old(cache[secretName]) && loadedFrom.None? && cache == old(cache)
      ensures !old(Hit(secretName)) ==>
                loadedFrom == Some(SourceOf(secretName))
                && v == (if production then Text(accessSecret(SecretVersionName(projectName, secretName)))
                         else readFile(secretName + ".json"))
                && cache == old(cache)[secretName := v]
    {
      if secretName in cache && TruthyValue(cache[secretName]) {
        return cache[secretName], None;
      }
      if !production {
        v := readFile(secretName + ".json");
        cache := cache[secretName := v];
        return v, Some(File(secretName + ".json"));
      }
      var versionName := SecretVersionName(projectName, secretName);
      v := Text(accessSecret(versionName));
      cache := cache[secretName := v];
      loadedFrom := Some(SecretManager(versionName));
    }

    /** `clearCache()`. */
    method ClearCache()
      modifies this
      ensures cache == map[]
    {
      cache := map[];
    }
  }

  /** Two lookups in a row: the second is served from the cache exactly when the first value is truthy. */
  method RepeatedGet(production: bool, projectName: string, secretName: string,
                     readFile: string -> SecretValue, accessSecret: string -> string)
      returns (first: SecretValue, second: SecretValue, secondLoad: Option<Source>)
    ensures TruthyValue(first) ==> second == first && secondLoad.None?
    ensures !TruthyValue(first) ==> secondLoad.Some? && second == first
  {
    var store := new SecretStore(production, projectName);
    var load;
    first, load := store.Get(secretName, readFile, accessSecret);
    second, secondLoad := store.Get(secretName, readFile, accessSecret);
  }

  /** A lookup after `clearCache` loads again, even when the value was cached before. */
  method GetAfterClear(production: bool, projectName: string, secretName: string,
                       readFile: string -> SecretValue, accessSecret: string -> string)
      returns (again: SecretValue, load: Option<Source>)
    ensures load.Some? && load.value == (if production then SecretManager(SecretVersionName(projectName, secretName))
                                         else File(secretName + ".json"))
  {
    var store := new SecretStore(production, projectName);
    var first, firstLoad := store.Get(secretName, readFile, accessSecret);
    store.ClearCache();
    again, load := store.Get(secretName, readFile, accessSecret);
  }
}
