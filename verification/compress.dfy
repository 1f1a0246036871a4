/**
 * The configuration object of one asset kind (scripts or stylesheets): its
 * groups, paths and URL roots, the production flag, the resolved filter chain
 * and the production tag cache, with the setters and the filter-chain loader
 * that update it in place.
 */
module Config {
  import opened Files

  const Js: string := "js"
  const Css: string := "css"

  /** A filter: one step of the chain that rewrites a file's text (a minifier). */
  type Filter = string -> string

  /**
   * A markup template executed on one URL: the rendered tag, or the text of
   * the execution error.
   */
  type Template = string -> Result<string>

  /** A named bundle: its output file, its ordered inputs and the inputs exempt from filtering. */
  datatype Group = Group(distFile: Path, sourceFiles: seq<Path>, skipFiles: seq<Path>)

  class Compress {
    var assetType: string
    var staticURL: string
    var srcPath: Path
    var distPath: Path
    var srcURL: string
    var distURL: string
    var groups: map<string, Group>
    var isProdMode: bool
    var filterList: seq<string>
    var filters: seq<Filter>
    /** Rendered production markup by group name; None until the first production render. */
    var caches: Option<map<string, string>>

    /** A configuration with the given roots and groups and every other field at its zero value. */
    constructor (srcPath: Path, distPath: Path, srcURL: string, distURL: string, groups: map<string, Group>)
      ensures this.srcPath == srcPath && this.distPath == distPath
      ensures this.srcURL == srcURL && this.distURL == distURL && this.groups == groups
      ensures assetType == "" && staticURL == "" && !isProdMode
      ensures filterList == [] && filters == [] && caches == None
    {
      this.srcPath := srcPath;
      this.distPath := distPath;
      this.srcURL := srcURL;
      this.distURL := distURL;
      this.groups := groups;
      assetType := "";
      staticURL := "";
      isProdMode := false;
      filterList := [];
      filters := [];
      caches := None;
    }

    /** Accepts only the two asset kinds; any other value is reported and ignored. */
    method SetType(t: string)
      modifies this`assetType
      ensures assetType == (if t == Js || t == Css then t else old(assetType))
    {
      if t != Js && t != Css {
        return;
      }
      assetType := t;
    }

    method SetProdMode(isProd: bool)
      modifies this`isProdMode
      ensures isProdMode == isProd
    {
      isProdMode := isProd;
    }

    method SetStaticURL(url: string)
      modifies this`staticURL
      ensures staticURL == url
    {
      staticURL := url;
    }

    /**
     * Appends to the chain, in the order of `filterList`, the registry entry of
     * every listed name the registry knows; when the chain is still empty
     * afterwards, substitutes the default chain of the asset kind.
     */
    method LoadFilters(registry: map<string, Filter>, defaultJs: seq<Filter>, defaultCss: seq<Filter>)
      modifies this`filters
      ensures filters == WithDefault(old(filters) + Resolve(filterList, registry), assetType, defaultJs, defaultCss)
    {
      var i := 0;
      while i < |filterList|
        invariant 0 <= i <= |filterList|
        invariant filters == old(filters) + Resolve(filterList[..i], registry)
      {
        var v := filterList[i];
        assert filterList[..i + 1][..i] == filterList[..i];
        if v in registry {
          filters := filters + [registry[v]];
        }
        i := i + 1;
      }
      assert filterList[..i] == filterList;
      if |filters| == 0 {
        if assetType == Js {
          filters := defaultJs;
        } else if assetType == Css {
          filters := defaultCss;
        }
      }
    }
  }

  /** The registry entries of the names, in order, skipping names the registry lacks. */
  function Resolve(names: seq<string>, registry: map<string, Filter>): seq<Filter>
  {
    if names == [] then []
    else
      var last := names[|names| - 1];
      Resolve(names[..|names| - 1], registry) + (if last in registry then [registry[last]] else [])
  }

  /** The names the registry knows, in their original order. */
  function KnownNames(names: seq<string>, registry: map<string, Filter>): seq<string>
  {
    if names == [] then []
    else (if names[0] in registry then [names[0]] else []) + KnownNames(names[1..], registry)
  }

  /** The kind's default chain in place of an empty chain; other kinds keep the empty chain. */
  function WithDefault(chain: seq<Filter>, assetType: string, defaultJs: seq<Filter>, defaultCss: seq<Filter>): seq<Filter>
  {
    if |chain| > 0 then chain
    else if assetType == Js then defaultJs
    else if assetType == Css then defaultCss
    else chain
  }

  /** The template `Compress` renders with: the script tag for scripts, the stylesheet link for stylesheets. */
  function SelectTemplate(assetType: string, jsTag: Template, cssTag: Template): (t: Template)
    ensures assetType == Js ==> t == jsTag
    ensures assetType == Css ==> t == cssTag
    ensures assetType != Js && assetType != Css ==> t == NilTemplate
  {
    if assetType == Js then jsTag else if assetType == Css then cssTag else NilTemplate
  }

  /** Stands for the nil template of an unset kind: executing it never yields markup. */
  const NilTemplate: Template := (url: string) => Err("template: no template for this asset type")

  /** Resolving a concatenation resolves each part. */
  lemma {:induction false} ResolveAppend(a: seq<string>, b: seq<string>, registry: map<string, Filter>)
    ensures Resolve(a + b, registry) == Resolve(a, registry) + Resolve(b, registry)
    decreases |b|
  {
    if b == [] {
      assert a + b == a;
    } else {
      var b' := b[..|b| - 1];
      assert (a + b)[..|a + b| - 1] == a + b';
      ResolveAppend(a, b', registry);
    }
  }

  /** A name the registry lacks contributes nothing, wherever it stands. */
  lemma UnknownNameIgnored(a: seq<string>, u: string, b: seq<string>, registry: map<string, Filter>)
    requires u !in registry
    ensures Resolve(a + [u] + b, registry) == Resolve(a + b, registry)
  {
    ResolveAppend(a + [u], b, registry);
    ResolveAppend(a, [u], registry);
    ResolveAppend(a, b, registry);
    assert Resolve([u], registry) == [] by {
      assert [u][..0] == [];
    }
  }

  lemma {:induction false} KnownNamesAppend(a: seq<string>, b: seq<string>, registry: map<string, Filter>)
    ensures KnownNames(a + b, registry) == KnownNames(a, registry) + KnownNames(b, registry)
  {
    if a != [] {
      assert (a + b)[1..] == a[1..] + b;
      KnownNamesAppend(a[1..], b, registry);
    } else {
      assert a + b == b;
    }
  }

  /**
   * The resolved chain holds exactly one filter per known name, in the order
   * of the names: the i-th filter is the registry entry of the i-th known name.
   */
  lemma {:induction false} ResolveIsKnownNamesLookedUp(names: seq<string>, registry: map<string, Filter>)
    ensures forall n <- KnownNames(names, registry) :: n in registry
    ensures |Resolve(names, registry)| == |KnownNames(names, registry)|
    ensures forall i :: 0 <= i < |KnownNames(names, registry)| ==>
      Resolve(names, registry)[i] == registry[KnownNames(names, registry)[i]]
    decreases |names|
  {
    if names != [] {
      var init, last := names[..|names| - 1], names[|names| - 1];
      assert names == init + [last];
      ResolveIsKnownNamesLookedUp(init, registry);
      KnownNamesAppend(init, [last], registry);
      assert KnownNames([last], registry) == if last in registry then [last] else [];
    }
  }

  /** When every listed name is known, the chain follows the list one to one. */
  lemma {:induction false} AllKnownNamesKept(names: seq<string>, registry: map<string, Filter>)
    requires forall n <- names :: n in registry
    ensures KnownNames(names, registry) == names
  {
    if names != [] {
      AllKnownNamesKept(names[1..], registry);
    }
  }

  /** When no listed name is known, nothing is appended, so the default can apply. */
  lemma {:induction false} NoKnownNamesResolveNothing(names: seq<string>, registry: map<string, Filter>)
    requires forall n <- names :: n !in registry
    ensures Resolve(names, registry) == []
  {
    if names != [] {
      NoKnownNamesResolveNothing(names[..|names| - 1], registry);
    }
  }

  /**
   * Loading appends and never resets: a chain that was already non-empty is
   * kept as a prefix and no default replaces it.
   */
  lemma LoadedChainExtendsOld(chain: seq<Filter>, names: seq<string>, registry: map<string, Filter>, assetType: string, defaultJs: seq<Filter>, defaultCss: seq<Filter>)
    requires |chain| > 0
    ensures var r := WithDefault(chain + Resolve(names, registry), assetType, defaultJs, defaultCss);
      |chain| <= |r| && r[..|chain|] == chain
  {
  }

  /** The default chain is used only when nothing was resolved, and only for the two kinds. */
  lemma DefaultChainOnlyWhenEmpty(chain: seq<Filter>, assetType: string, defaultJs: seq<Filter>, defaultCss: seq<Filter>)
    ensures |chain| > 0 ==> WithDefault(chain, assetType, defaultJs, defaultCss) == chain
    ensures |chain| == 0 && assetType == Js ==> WithDefault(chain, assetType, defaultJs, defaultCss) == defaultJs
    ensures |chain| == 0 && assetType == Css ==> WithDefault(chain, assetType, defaultJs, defaultCss) == defaultCss
    ensures |chain| == 0 && assetType != Js && assetType != Css ==> WithDefault(chain, assetType, defaultJs, defaultCss) == []
  {
  }
}
