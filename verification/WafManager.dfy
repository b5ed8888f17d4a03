// internal/waf/manager.go: the pair of compiled engines and its all-or-nothing
// replacement. What the compiler accepts is a parameter; an engine is known by
// what it was built from and by the reload that built it.
module WafManager {
  import opened Wrappers
  import opened Store

  // Whether a whole configuration text compiles.
  type Compiler = string -> bool

  const BASE_DIRECTIVES :=
    "\nInclude @coraza.conf-recommended\nInclude @crs-setup.conf.example\nInclude @owasp_crs/*.conf\n"

  // `source` is the list of custom directives, `setting` the SecRuleEngine value
  // appended to it, `generation` tells the engines of different reloads apart.
  datatype Engine = Engine(source: seq<string>, setting: string, generation: nat)

  type Engines = map<string, Engine>

  function Join(lines: seq<string>): string {
    if lines == [] then ""
    else if |lines| == 1 then lines[0]
    else lines[0] + "\n" + Join(lines[1..])
  }

  predicate IsSpace(c: char) {
    c in "\t\n\U{000B}\U{000C}\r \U{0085}\U{00A0}\U{1680}\U{2028}\U{2029}\U{202F}\U{205F}\U{3000}"
    || '\U{2000}' <= c <= '\U{200A}'
  }

  predicate Blank(text: string) {
    forall c <- text :: IsSpace(c)
  }

  // The configuration text handed to the compiler.
  function ConfigText(custom: string, setting: string): string {
    BASE_DIRECTIVES + (if Blank(custom) then "" else "\n" + custom) + "\nSecRuleEngine " + setting + "\n"
  }

  // Each directive behind a line break of its own.
  function LinesOf(directives: seq<string>): string {
    if directives == [] then "" else "\n" + directives[0] + LinesOf(directives[1..])
  }

  lemma {:induction false} JoinIsLines(directives: seq<string>)
    requires directives != []
    ensures "\n" + Join(directives) == LinesOf(directives)
  {
    if |directives| > 1 {
      JoinIsLines(directives[1..]);
    }
  }

  lemma BlankConcat(a: string, b: string)
    ensures Blank(a + b) <==> Blank(a) && Blank(b)
  {
    assert forall c :: c in a + b <==> c in a || c in b;
  }

  // The joined text is blank only if every directive is.
  lemma {:induction false} JoinBlank(directives: seq<string>)
    ensures Blank(Join(directives)) <==> forall d <- directives :: Blank(d)
  {
    if |directives| > 1 {
      var rest := directives[1..];
      JoinBlank(rest);
      BlankConcat(directives[0] + "\n", Join(rest));
      BlankConcat(directives[0], "\n");
      assert forall d :: d in directives <==> d == directives[0] || d in rest;
    }
  }

  // Unless all are blank the compiled text holds the lines of all directives,
  // between the base rules and the engine setting.
  lemma TextHolds(directives: seq<string>, setting: string)
    requires exists d <- directives :: !Blank(d)
    ensures ConfigText(Join(directives), setting) == BASE_DIRECTIVES + LinesOf(directives) + "\nSecRuleEngine " + setting + "\n"
  {
    JoinBlank(directives);
    JoinIsLines(directives);
  }

  // Each directive starts and ends a line of its own there, in list order.
  lemma {:induction false} LinesHold(before: seq<string>, directive: string, after: seq<string>)
    ensures LinesOf(before + [directive] + after) == LinesOf(before) + ("\n" + directive + LinesOf(after))
    ensures after != [] ==> LinesOf(after)[0] == '\n'
  {
    var all := before + [directive] + after;
    if before == [] {
      assert all[0] == directive && all[1..] == after;
    } else {
      assert all[0] == before[0] && all[1..] == before[1..] + [directive] + after;
      LinesHold(before[1..], directive, after);
    }
  }

  // With nothing but blank directives it is the base rules and the setting.
  lemma TextWithoutRules(directives: seq<string>, setting: string)
    requires forall d <- directives :: Blank(d)
    ensures ConfigText(Join(directives), setting) == BASE_DIRECTIVES + "\nSecRuleEngine " + setting + "\n"
  {
    JoinBlank(directives);
    assert BASE_DIRECTIVES + "" == BASE_DIRECTIVES;
  }

  // Both texts built from a directive list compile.
  predicate Compiles(compiler: Compiler, directives: seq<string>) {
    compiler(ConfigText(Join(directives), "On")) && compiler(ConfigText(Join(directives), "DetectionOnly"))
  }

  // The engines one successful reload installs.
  function EnginePair(directives: seq<string>, generation: nat): Engines {
    map[MODE_ON := Engine(directives, "On", generation),
        MODE_DETECTION := Engine(directives, "DetectionOnly", generation)]
  }

  class Manager {
    const compiler: Compiler
    var engines: Engines
    // How many reloads have installed a pair.
    var generation: nat

    constructor (compiler: Compiler)
      ensures this.compiler == compiler && engines == map[] && generation == 0
    {
      this.compiler := compiler;
      engines, generation := map[], 0;
    }

    method Build(directives: seq<string>, setting: string) returns (r: Option<Engine>)
      ensures r == if compiler(ConfigText(Join(directives), setting)) then Some(Engine(directives, setting, generation + 1)) else None
    {
      var text := BASE_DIRECTIVES;
      var custom := Join(directives);
      if !Blank(custom) {
        text := text + "\n" + custom;
      }
      text := text + "\nSecRuleEngine " + setting + "\n";
      assert text == ConfigText(custom, setting) by {
        assert BASE_DIRECTIVES + "" == BASE_DIRECTIVES;
        assert BASE_DIRECTIVES + "\n" + custom == BASE_DIRECTIVES + ("\n" + custom);
      }
      r := if compiler(text) then Some(Engine(directives, setting, generation + 1)) else None;
    }

    // Either both engines are replaced or nothing is.
    method Reload(directives: seq<string>) returns (ok: bool)
      modifies this
      ensures ok == Compiles(compiler, directives)
      ensures ok ==> generation == old(generation) + 1 && engines == EnginePair(directives, generation)
      ensures !ok ==> generation == old(generation) && engines == old(engines)
    {
      var on := Build(directives, "On");
      if on.None? {
        return false;
      }
      var detect := Build(directives, "DetectionOnly");
      if detect.None? {
        return false;
      }
      generation := generation + 1;
      engines := map[MODE_ON := on.value, MODE_DETECTION := detect.value];
      return true;
    }

    // The engine for a site's mode, or nothing.
    method EngineFor(mode: string) returns (e: Option<Engine>)
      ensures e == if mode in engines then Some(engines[mode]) else None
    {
      if mode in engines {
        return Some(engines[mode]);
      }
      return None;
    }
  }
}
