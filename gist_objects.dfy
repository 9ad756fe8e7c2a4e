/**
 * The gist tags as objects: the remote side, the cache folder and the tag
 * itself, whose methods update them in place. Each method is proved to
 * agree with the function of the same name in module `Gist`.
 */
module GistObjects {
  import opened Common
  import Text
  import opened Gist

  /** The remote side: the API and the raw-content host, with ghost counts of the requests made. */
  class Remote {
    const gists: map<string, Reply>
    const raws: map<string, string>
    ghost var apiCalls: nat
    ghost var rawCalls: nat

    constructor (gists: map<string, Reply>, raws: map<string, string>)
      ensures this.gists == gists && this.raws == raws
      ensures apiCalls == 0 && rawCalls == 0
    {
      this.gists := gists;
      this.raws := raws;
      apiCalls, rawCalls := 0, 0;
    }

    function Data(): RemoteData
    {
      RemoteData(gists, raws)
    }

    /** The HTTP part of `get_gist_from_api`: GET the gist's API URL and parse the JSON; any failure raises. */
    method FetchReply(gist: string) returns (r: Outcome<Reply>)
      modifies this
      ensures apiCalls == old(apiCalls) + 1 && rawCalls == old(rawCalls)
      ensures r == (if gist in gists then Done(gists[gist]) else Raised)
    {
      apiCalls := apiCalls + 1;
      r := if gist in gists then Done(gists[gist]) else Raised;
    }

    /** `get_raw_gist`: GET a raw URL; any failure raises. */
    method FetchRaw(url: string) returns (r: Outcome<string>)
      modifies this
      ensures rawCalls == old(rawCalls) + 1 && apiCalls == old(apiCalls)
      ensures r == (if url in raws then Done(raws[url]) else Raised)
    {
      rawCalls := rawCalls + 1;
      r := if url in raws then Done(raws[url]) else Raised;
    }
  }

  /** The `.gist-cache` folder: one record per cache file name. */
  class CacheStore {
    var entries: map<string, Record>
    ghost var writes: nat

    constructor (entries: map<string, Record>)
      ensures this.entries == entries && writes == 0
    {
      this.entries := entries;
      writes := 0;
    }

    /** Writes a cache file, replacing any earlier one of that name. */
    method Put(name: string, rec: Record)
      modifies this
      ensures entries == old(entries)[name := rec] && writes == old(writes) + 1
    {
      entries := entries[name := rec];
      writes := writes + 1;
    }
  }

  /** One `gist`, `gistnocache` or `gistbust` tag in a page. */
  class GistTag {
    const kind: Kind
    const text: string
    const svc: Services
    const cache: CacheStore
    const remote: Remote
    var gist: string
    var file: string
    var checkUpdate: bool

    /**
     * `initialize`, with the subclasses' flag settings folded into `kind`.
     * `initialize` sets `@gist` and `@file` to nil, and they stay nil until
     * `render` parses the markup; `""` stands for that nil here.  `Render`
     * assigns both fields before any operation reads them, and when the
     * markup holds no gist id it returns `""` without reading either.
     */
    constructor (kind: Kind, text: string, svc: Services, cache: CacheStore, remote: Remote)
      ensures this.kind == kind && this.text == text && this.svc == svc
      ensures this.cache == cache && this.remote == remote
      ensures gist == "" && file == "" && !checkUpdate
    {
      this.kind := kind;
      this.text := text;
      this.svc := svc;
      this.cache := cache;
      this.remote := remote;
      gist, file, checkUpdate := "", "", false;
    }

    function State(): TagState
      reads this
    {
      TagState(kind, gist, file, checkUpdate)
    }

    ghost function Now(): World
      reads this, cache, remote
    {
      World(cache.entries, remote.apiCalls, remote.rawCalls, cache.writes)
    }

    /** `cache_data`. */
    method CacheData(rec: Record)
      modifies cache
      ensures Now() == Put(old(Now()), CacheFileName(svc.md5, gist, file), rec)
    {
      cache.Put(CacheFileName(svc.md5, gist, file), rec);
    }

    /** `get_gist_from_api`. */
    method GetGistFromApi() returns (r: Outcome<Option<Checked>>)
      modifies remote
      ensures Step(r, Now()) == Gist.GetGistFromApi(State(), remote.Data(), old(Now()))
    {
      var reply := remote.FetchReply(gist);
      if reply.Raised? {
        return Raised;
      }
      r := SelectFile(reply.value, file);
    }

    /** `gist_to_data`. */
    method GistToData(c: Option<Checked>) returns (r: Outcome<Record>)
      modifies cache, remote
      ensures Step(r, Now()) == Gist.GistToData(State(), remote.Data(), svc, c, old(Now()))
    {
      if c.None? {
        return Raised;
      }
      var f := c.value.entry;
      var raw: string;
      if f.truncated {
        var body := remote.FetchRaw(f.rawUrl);
        if body.Raised? {
          return Raised;
        }
        raw := body.value;
      } else {
        raw := f.content;
      }
      var lang: string;
      var source: string;
      if f.language.Some? {
        lang := Text.Downcase(f.language.value);
        source := svc.highlight(raw, lang);
      } else {
        lang := "";
        source := svc.tableize(Text.ReplaceChar(Text.Strip(raw), '<', "&lt;"));
      }
      var res := Record(gist, Some(c.value.updated), f.filename, f.rawUrl, raw, lang, source);
      if kind != NoCache {
        CacheData(res);
      }
      r := Done(res);
    }

    /** `get_data_from_api`. */
    method GetDataFromApi() returns (r: Outcome<Record>)
      modifies cache, remote
      ensures Step(r, Now()) == Gist.GetDataFromApi(State(), remote.Data(), svc, old(Now()))
    {
      var f := GetGistFromApi();
      if f.Raised? {
        return Raised;
      }
      r := GistToData(f.value);
    }

    /** `get_cached_gist`. */
    method GetCachedGist() returns (r: Outcome<Option<Record>>)
      modifies cache, remote
      ensures Step(r, Now()) == Gist.GetCachedGist(State(), remote.Data(), svc, old(Now()))
    {
      if kind != Plain {
        return Done(None);
      }
      var name := CacheFileName(svc.md5, gist, file);
      if name !in cache.entries {
        return Done(None);
      }
      var stored := cache.entries[name];
      if !checkUpdate {
        return Done(Some(stored));
      }
      var check := GetGistFromApi();
      if check.Raised? || check.value.None? {
        return Raised;
      }
      if stored.updated.Some? && stored.updated == check.value.value.entry.updatedAt {
        return Done(Some(stored));
      }
      var d := GistToData(check.value);
      r := if d.Done? then Done(Some(d.value)) else Raised;
    }

    /** `render`, given the site's `gist_check_update` setting. */
    method Render(checkUpdateConfig: bool) returns (out: Option<string>)
      modifies this, cache, remote
      ensures Step(Done(out), Now()) == Gist.Render(kind, text, checkUpdateConfig, remote.Data(), svc, old(Now()))
      ensures checkUpdate == checkUpdateConfig
      ensures RenderState(kind, text, checkUpdateConfig).Some? ==> State() == RenderState(kind, text, checkUpdateConfig).value
      ensures RenderState(kind, text, checkUpdateConfig).None? ==> gist == old(gist) && file == old(file)
    {
      checkUpdate := checkUpdateConfig;
      var parts := ParseMarkup(text);
      if parts.None? {
        return Some("");
      }
      gist, file := parts.value.0, parts.value.1;
      var cached := GetCachedGist();
      if cached.Raised? {
        return None;
      }
      if cached.value.Some? {
        return Some(HtmlForData(cached.value.value));
      }
      var data := GetDataFromApi();
      out := if data.Done? then Some(HtmlForData(data.value)) else None;
    }
  }
}
