/**
 * The command-line configuration: global paste options, per-bin settings that fall back on
 * them, and the lookup of a bin by name.
 */
module Config {
  import opened Wrappers

  datatype AuthCfg = AuthCfg(username: string, password: string)

  /** BinCfg; a `*bool` left nil by the file is None. */
  datatype BinCfg = BinCfg(
    name: string,
    host: string,
    auth: AuthCfg,
    expire: string,
    openDiscussion: Option<bool>,
    burnAfterReading: Option<bool>,
    gzip: Option<bool>,
    formatter: string)

  /** The global options of a Cfg, which a bin inherits. */
  datatype GlobalOptions = GlobalOptions(
    expire: string, openDiscussion: bool, burnAfterReading: bool, gzip: bool, formatter: string)

  datatype ConfigError = BinNotFound(name: string)   // "cannot find <name> bin configuration"

  const DefaultGlobals: GlobalOptions := GlobalOptions("1day", false, false, true, "plaintext")

  class Cfg {
    var bin: array<BinCfg>
    var expire: string
    var openDiscussion: bool
    var burnAfterReading: bool
    var gzip: bool
    var formatter: string

    /** defaultConfig: no bins, expiry "1day", formatter "plaintext", compression on, both flags off. */
    constructor Default()
      ensures Globals() == DefaultGlobals
      ensures bin.Length == 0 && fresh(bin)
    {
      bin := new BinCfg[0];
      expire := "1day";
      openDiscussion := false;
      burnAfterReading := false;
      gzip := true;
      formatter := "plaintext";
    }

    function Globals(): GlobalOptions
      reads this
    {
      GlobalOptions(expire, openDiscussion, burnAfterReading, gzip, formatter)
    }
  }

  /**
   * One bin after the merge of loadCfgFile: an empty expiry or formatter and an unset flag
   * take the global value; everything else is kept.
   */
  function Inherit(b: BinCfg, g: GlobalOptions): (r: BinCfg)
    ensures r.name == b.name && r.host == b.host && r.auth == b.auth
    ensures r.expire == (if b.expire == "" then g.expire else b.expire)
    ensures r.formatter == (if b.formatter == "" then g.formatter else b.formatter)
    ensures r.openDiscussion == (if b.openDiscussion.None? then Some(g.openDiscussion) else b.openDiscussion)
    ensures r.burnAfterReading == (if b.burnAfterReading.None? then Some(g.burnAfterReading) else b.burnAfterReading)
    ensures r.gzip == (if b.gzip.None? then Some(g.gzip) else b.gzip)
  {
    var expire := if b.expire == "" then g.expire else b.expire;
    var openDiscussion := if b.openDiscussion.None? then Some(g.openDiscussion) else b.openDiscussion;
    var burnAfterReading := if b.burnAfterReading.None? then Some(g.burnAfterReading) else b.burnAfterReading;
    var formatter := if b.formatter == "" then g.formatter else b.formatter;
    var gzip := if b.gzip.None? then Some(g.gzip) else b.gzip;
    b.(expire := expire, openDiscussion := openDiscussion, burnAfterReading := burnAfterReading,
       formatter := formatter, gzip := gzip)
  }

  /** A bin that leaves nothing to inherit. */
  predicate Complete(b: BinCfg) {
    b.expire != "" && b.formatter != ""
    && b.openDiscussion.Some? && b.burnAfterReading.Some? && b.gzip.Some?
  }

  /** After the merge every flag is set, and so are the texts when the globals have them. */
  lemma InheritCompletes(b: BinCfg, g: GlobalOptions)
    requires g.expire != "" && g.formatter != ""
    ensures Complete(Inherit(b, g))
  {
  }

  /** A complete bin is left as it is. */
  lemma CompleteUnchanged(b: BinCfg, g: GlobalOptions)
    requires Complete(b)
    ensures Inherit(b, g) == b
  {
  }

  /** Merging twice gives what merging once gives. */
  lemma InheritIdempotent(b: BinCfg, g: GlobalOptions)
    ensures Inherit(Inherit(b, g), g) == Inherit(b, g)
  {
  }

  /** The merge loop of loadCfgFile: bin i is rewritten from bin i, and only there. */
  method MergeBins(cfg: Cfg)
    modifies cfg.bin
    ensures forall i :: 0 <= i < cfg.bin.Length ==> cfg.bin[i] == Inherit(old(cfg.bin[i]), cfg.Globals())
  {
    var g := cfg.Globals();
    for i := 0 to cfg.bin.Length
      invariant forall k :: 0 <= k < i ==> cfg.bin[k] == Inherit(old(cfg.bin[k]), g)
      invariant forall k :: i <= k < cfg.bin.Length ==> cfg.bin[k] == old(cfg.bin[k])
    {
      var binCfg := cfg.bin[i];
      if binCfg.expire == "" {
        binCfg := binCfg.(expire := cfg.expire);
      }
      if binCfg.openDiscussion.None? {
        binCfg := binCfg.(openDiscussion := Some(cfg.openDiscussion));
      }
      if binCfg.burnAfterReading.None? {
        binCfg := binCfg.(burnAfterReading := Some(cfg.burnAfterReading));
      }
      if binCfg.formatter == "" {
        binCfg := binCfg.(formatter := cfg.formatter);
      }
      if binCfg.gzip.None? {
        binCfg := binCfg.(gzip := Some(cfg.gzip));
      }
      cfg.bin[i] := binCfg;
    }
  }

  /** findBinCfg: the first bin with the given name, or an error naming it. */
  method FindBinCfg(cfg: Cfg, name: string) returns (r: Result<BinCfg, ConfigError>)
    ensures r.Err? <==> forall i :: 0 <= i < cfg.bin.Length ==> cfg.bin[i].name != name
    ensures r.Err? ==> r.error == BinNotFound(name)
    ensures r.Ok? ==> exists i ::
      0 <= i < cfg.bin.Length && cfg.bin[i] == r.value && (forall k :: 0 <= k < i ==> cfg.bin[k].name != name)
    ensures r.Ok? ==> r.value.name == name
  {
    for i := 0 to cfg.bin.Length
      invariant forall k :: 0 <= k < i ==> cfg.bin[k].name != name
    {
      var bin := cfg.bin[i];
      if bin.name == name {
        return Ok(bin);
      }
    }
    return Err(BinNotFound(name));
  }
}
