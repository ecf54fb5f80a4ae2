/**
 * Replays: while recording, the game's configuration and then every attack
 * are written to a text file, one `key=value` or comma-separated line each;
 * loading reads the lines back and hands out the attacks one at a time.
 * The file is modelled as its sequence of lines.
 */
module ReplaySystem {
  import opened Prefixes
  import opened Wrappers
  import opened GameData
  import opened ReplayText

  // ---------------------------------------------------------------------
  // The configuration section

  /** The first comment line of every replay. */
  const HEADER: String := "# Hex Empire Replay v1"

  /** The integer-valued keys read with `std::stoi`; `fillHoles` and `keepLargestIslandOnly` hold 0 or 1. */
  const INT_KEYS: set<String> := {"gridWidth", "gridHeight", "playerCount", "humanPlayerIndex", "targetTerritoryCount",
                                  "minTerritorySize", "maxTerritorySize", "startingDicePerPlayer", "fillHoles",
                                  "minHoleSize", "keepLargestIslandOnly"}

  /** The `key=value` pairs the configuration is written as, in file order; the hex size is written as `hexSizeText`. */
  function ConfigPairs(c: GameConfig, hexSizeText: String): seq<(String, String)>
  {
    GridPairs(c) + TerritoryPairs(c) + OptionPairs(c, hexSizeText)
  }

  /** The grid size and the players. */
  function GridPairs(c: GameConfig): seq<(String, String)>
  {
    [ ("gridWidth", IntToString(c.gridWidth)),
      ("gridHeight", IntToString(c.gridHeight)),
      ("playerCount", IntToString(c.playerCount)),
      ("humanPlayerIndex", IntToString(c.humanPlayerIndex)) ]
  }

  /** The territory sizes and the starting dice. */
  function TerritoryPairs(c: GameConfig): seq<(String, String)>
  {
    [ ("targetTerritoryCount", IntToString(c.targetTerritoryCount)),
      ("minTerritorySize", IntToString(c.minTerritorySize)),
      ("maxTerritorySize", IntToString(c.maxTerritorySize)),
      ("startingDicePerPlayer", IntToString(c.startingDicePerPlayer)) ]
  }

  /** The hex size, the seed and the island options; flags are written as 1 or 0. */
  function OptionPairs(c: GameConfig, hexSizeText: String): seq<(String, String)>
  {
    [ ("hexSize", hexSizeText),
      ("seed", NatToString(c.seed)),
      ("fillHoles", if c.fillHoles then "1" else "0"),
      ("minHoleSize", IntToString(c.minHoleSize)),
      ("keepLargestIslandOnly", if c.keepLargestIslandOnly then "1" else "0") ]
  }

  /** Each pair as a `key=value` line. */
  function PairLines(pairs: seq<(String, String)>): (r: seq<String>)
    ensures |r| == |pairs| && forall k :: 0 <= k < |pairs| ==> r[k] == pairs[k].0 + "=" + pairs[k].1
  {
    if |pairs| == 0 then [] else [pairs[0].0 + "=" + pairs[0].1] + PairLines(pairs[1..])
  }

  /** One more pair adds its line at the end. */
  lemma {:induction false} PairLinesSnoc(pairs: seq<(String, String)>, k: nat)
    requires k < |pairs|
    ensures PairLines(pairs[..k + 1]) == PairLines(pairs[..k]) + [pairs[k].0 + "=" + pairs[k].1]
  {
    var a, b := PairLines(pairs[..k + 1]), PairLines(pairs[..k]) + [pairs[k].0 + "=" + pairs[k].1];
    assert |a| == |b|;
    forall j | 0 <= j < |a| ensures a[j] == b[j] {
      assert pairs[..k + 1][j] == pairs[j];
      if j < k {
        assert pairs[..k][j] == pairs[j];
      }
    }
  }

  /** The lines `WriteConfig` writes: the header comment, the section marker and one line per key. */
  function ConfigLines(c: GameConfig, hexSizeText: String): seq<String>
  {
    [HEADER, "[CONFIG]"] + PairLines(ConfigPairs(c, hexSizeText))
  }

  /** `line` split at its first `=`, if it has one. */
  function SplitAtEquals(line: String): Option<(String, String)>
  {
    match IndexOf(line, '=')
    case None => None
    case Some(i) => Some((line[..i], line[i + 1..]))
  }

  /** `v` cast to an unsigned integer of `m` values: reduced modulo `m`, and kept as it is when it already fits. */
  function Wrap(v: int, m: nat): (r: nat)
    requires m > 0
    ensures r == v % m
    ensures 0 <= v < m ==> r == v
  {
    if 0 <= v < m then v else v % m
  }

  /** Sets the integer-valued field named `key`; a flag is set when the value is not 0. */
  function SetIntKey(c: GameConfig, key: String, v: int): GameConfig
  {
    if key == "gridWidth" then c.(gridWidth := v)
    else if key == "gridHeight" then c.(gridHeight := v)
    else if key == "playerCount" then c.(playerCount := v)
    else if key == "humanPlayerIndex" then c.(humanPlayerIndex := v)
    else if key == "targetTerritoryCount" then c.(targetTerritoryCount := v)
    else if key == "minTerritorySize" then c.(minTerritorySize := v)
    else if key == "maxTerritorySize" then c.(maxTerritorySize := v)
    else if key == "startingDicePerPlayer" then c.(startingDicePerPlayer := v)
    else if key == "fillHoles" then c.(fillHoles := v != 0)
    else if key == "minHoleSize" then c.(minHoleSize := v)
    else if key == "keepLargestIslandOnly" then c.(keepLargestIslandOnly := v != 0)
    else c
  }

  /** The grid and player keys name their own fields. */
  lemma SetIntKeyFields(c: GameConfig, c1: GameConfig, c2: GameConfig, c3: GameConfig, w: int, h: int, p: int, hp: int)
    requires c1 == SetIntKey(c, "gridWidth", w) && c2 == SetIntKey(c1, "gridHeight", h)
    requires c3 == SetIntKey(c2, "playerCount", p)
    ensures SetIntKey(c3, "humanPlayerIndex", hp) == c.(gridWidth := w, gridHeight := h, playerCount := p, humanPlayerIndex := hp)
  {
  }

  /** The territory keys name their own fields. */
  lemma SetTerritoryKeysFields(c: GameConfig, c1: GameConfig, c2: GameConfig, c3: GameConfig, t: int, lo: int, hi: int, d: int)
    requires c1 == SetIntKey(c, "targetTerritoryCount", t) && c2 == SetIntKey(c1, "minTerritorySize", lo)
    requires c3 == SetIntKey(c2, "maxTerritorySize", hi)
    ensures SetIntKey(c3, "startingDicePerPlayer", d)
         == c.(targetTerritoryCount := t, minTerritorySize := lo, maxTerritorySize := hi, startingDicePerPlayer := d)
  {
  }

  /** The flag and hole-size keys name their own fields; a flag is set when its value is not 0. */
  lemma SetOptionKeysFields(c: GameConfig, c1: GameConfig, c2: GameConfig, f: int, m: int, k: int)
    requires c1 == SetIntKey(c, "fillHoles", f) && c2 == SetIntKey(c1, "minHoleSize", m)
    ensures SetIntKey(c2, "keepLargestIslandOnly", k) == c.(fillHoles := f != 0, minHoleSize := m, keepLargestIslandOnly := k != 0)
  {
  }

  /**
   * One `key=value` line applied to the configuration: a known key sets its
   * field, an unknown key changes nothing, and a value the parser rejects
   * gives no configuration (the parser throws). The seed is read as an
   * `unsigned long` and kept to 32 bits; the float hex size is not modelled.
   */
  function ApplyKey(c: GameConfig, key: String, value: String): Option<GameConfig>
  {
    if key in INT_KEYS then
      match ParseInt(value)
      case None => None
      case Some(v) => Some(SetIntKey(c, key, v))
    else if key == "seed" then
      match ParseUnsigned(value)
      case None => None
      case Some(v) => Some(c.(seed := Wrap(v, 0x1_0000_0000)))
    else Some(c)
  }

  /** Where reading the configuration section stops. */
  datatype ConfigScan =
    | Finished(config: GameConfig, rest: seq<String>)  // at `[ACTIONS]` or the end; `rest` follows it
    | Threw(config: GameConfig)                        // a value the parser rejected; the exception escapes

  /**
   * Reading the configuration section from `lines`: blank and `#` lines are
   * skipped, `[CONFIG]` opens the section, `[ACTIONS]` ends the reading, and
   * inside the section each line with an `=` is applied as `key=value`.
   */
  function ScanConfig(lines: seq<String>, inConfig: bool, c: GameConfig): ConfigScan
    decreases |lines|, 0
  {
    if |lines| == 0 then Finished(c, []) else ScanLine(lines[0], lines[1..], inConfig, c)
  }

  /** What one line of the configuration section does to the scan. */
  datatype LineEffect = Continue(inConfig: bool, config: GameConfig) | SectionEnd | Throws

  /**
   * One line of the configuration section: blank lines and comments are
   * skipped, `[CONFIG]` opens the section, `[ACTIONS]` ends the scan, and in
   * the section a `key=value` line sets its key, where a value the parser
   * rejects throws.
   */
  function ConfigLineEffect(line: String, inConfig: bool, c: GameConfig): (e: LineEffect)
    ensures e.Throws? ==> inConfig && SplitAtEquals(line).Some?
    ensures e.SectionEnd? <==> line == "[ACTIONS]"
    ensures e.Continue? && !e.inConfig ==> !inConfig && e.config == c
  {
    if |line| == 0 || line[0] == '#' then Continue(inConfig, c)
    else if line == "[CONFIG]" then Continue(true, c)
    else if line == "[ACTIONS]" then SectionEnd
    else if !inConfig then Continue(inConfig, c)
    else
      match SplitAtEquals(line)
      case None => Continue(inConfig, c)
      case Some((key, value)) =>
        match ApplyKey(c, key, value)
        case None => Throws
        case Some(c') => Continue(inConfig, c')
  }

  /** Reading one line `line` of the configuration section, followed by `rest`. */
  function ScanLine(line: String, rest: seq<String>, inConfig: bool, c: GameConfig): ConfigScan
    decreases |rest|, 1
  {
    match ConfigLineEffect(line, inConfig, c)
    case Continue(nowIn, c') => ScanConfig(rest, nowIn, c')
    case SectionEnd => Finished(c, rest)
    case Throws => Threw(c)
  }

  /** Reading from line `i` on is reading line `i` and then the lines after it. */
  lemma ScanConfigStep(lines: seq<String>, i: nat, inConfig: bool, c: GameConfig)
    requires i < |lines|
    ensures ScanConfig(lines[i..], inConfig, c) == ScanLine(lines[i], lines[i + 1..], inConfig, c)
  {
    assert lines[i..][0] == lines[i] && lines[i..][1..] == lines[i + 1..];
  }

  /** All pairs applied in order, or none if a value is rejected. */
  function ApplyPairs(c: GameConfig, pairs: seq<(String, String)>): Option<GameConfig>
    decreases |pairs|
  {
    if |pairs| == 0 then Some(c)
    else
      match ApplyKey(c, pairs[0].0, pairs[0].1)
      case None => None
      case Some(c') => ApplyPairs(c', pairs[1..])
  }

  /** A key that is not blank, not a comment or section marker, and holds no `=`. */
  predicate PlainKey(key: String)
  {
    |key| > 0 && key[0] != '#' && key[0] != '[' && '=' !in key
  }

  /** A `key=value` line whose key holds no `=` splits back into its key and value. */
  lemma SplitKeyValue(key: String, value: String)
    requires '=' !in key
    ensures SplitAtEquals(key + "=" + value) == Some((key, value))
  {
    var line := key + "=" + value;
    assert line[|key|] == '=';
    var i := IndexOf(line, '=').value;
    assert line[..|key|] == key && line[|key| + 1..] == value;
  }

  /** Inside the section, `key=value` lines apply their pairs in order. */
  lemma {:induction false} ScanPairLines(pairs: seq<(String, String)>, tail: seq<String>, c: GameConfig)
    requires forall k :: 0 <= k < |pairs| ==> PlainKey(pairs[k].0)
    ensures ApplyPairs(c, pairs).Some? ==> ScanConfig(PairLines(pairs) + tail, true, c) == ScanConfig(tail, true, ApplyPairs(c, pairs).value)
    ensures ApplyPairs(c, pairs).None? ==> ScanConfig(PairLines(pairs) + tail, true, c).Threw?
    decreases |pairs|
  {
    if |pairs| == 0 {
      assert PairLines(pairs) + tail == tail;
    } else {
      var key, value := pairs[0].0, pairs[0].1;
      var line := key + "=" + value;
      var lines := PairLines(pairs) + tail;
      assert lines[0] == line && lines[1..] == PairLines(pairs[1..]) + tail;
      assert line[0] == key[0];
      assert line != "[CONFIG]" && line != "[ACTIONS]";
      SplitKeyValue(key, value);
      match ApplyKey(c, key, value)
      case None =>
      case Some(c') =>
        ScanPairLines(pairs[1..], tail, c');
    }
  }

  /** Applying the `k`-th pair, when its value is accepted, moves the rest of the reading on by one pair. */
  lemma ApplyStep(c: GameConfig, pairs: seq<(String, String)>, k: nat, c': GameConfig)
    requires k < |pairs| && ApplyKey(c, pairs[k].0, pairs[k].1) == Some(c')
    ensures ApplyPairs(c, pairs[k..]) == ApplyPairs(c', pairs[k + 1..])
  {
    assert pairs[k..][1..] == pairs[k + 1..];
  }

  /** Which keys are read as integers. */
  lemma IntKeysListed()
    ensures "gridWidth" in INT_KEYS && "gridHeight" in INT_KEYS && "playerCount" in INT_KEYS
    ensures "humanPlayerIndex" in INT_KEYS && "targetTerritoryCount" in INT_KEYS && "minTerritorySize" in INT_KEYS
    ensures "maxTerritorySize" in INT_KEYS && "startingDicePerPlayer" in INT_KEYS && "fillHoles" in INT_KEYS
    ensures "minHoleSize" in INT_KEYS && "keepLargestIslandOnly" in INT_KEYS
    ensures "hexSize" !in INT_KEYS && "seed" !in INT_KEYS
  {
  }

  /** A flag is written as the integer 1 or 0. */
  lemma FlagText(b: bool)
    ensures IntToString(if b then 1 else 0) == if b then "1" else "0"
  {
    assert NatToString(1) == "1" && NatToString(0) == "0";
  }

  /** Applying one block of pairs and then another is applying both. */
  lemma {:induction false} ApplyPairsAppend(c: GameConfig, p: seq<(String, String)>, q: seq<(String, String)>)
    ensures ApplyPairs(c, p + q) == if ApplyPairs(c, p).Some? then ApplyPairs(ApplyPairs(c, p).value, q) else None
    decreases |p|
  {
    if |p| == 0 {
      assert p + q == q;
    } else {
      assert (p + q)[0] == p[0] && (p + q)[1..] == p[1..] + q;
      match ApplyKey(c, p[0].0, p[0].1)
      case None =>
      case Some(c') => ApplyPairsAppend(c', p[1..], q);
    }
  }

  /** An integer pair whose value reads as `v` sets its key's field and moves on by one pair. */
  lemma IntPairStep(c: GameConfig, pairs: seq<(String, String)>, k: nat, v: int)
    requires k < |pairs| && pairs[k].0 in INT_KEYS && ParseInt(pairs[k].1) == Some(v)
    ensures ApplyPairs(c, pairs[k..]) == ApplyPairs(SetIntKey(c, pairs[k].0, v), pairs[k + 1..])
  {
    ApplyStep(c, pairs, k, SetIntKey(c, pairs[k].0, v));
  }

  /** Values written as `int`s read back. */
  lemma IntTextsRead(pairs: seq<(String, String)>, vs: seq<int>)
    requires |pairs| == |vs| && forall k :: 0 <= k < |pairs| ==> pairs[k].1 == IntToString(vs[k]) && INT_MIN <= vs[k] <= INT_MAX
    ensures forall k :: 0 <= k < |pairs| ==> ParseInt(pairs[k].1) == Some(vs[k])
  {
    forall k | 0 <= k < |pairs| ensures ParseInt(pairs[k].1) == Some(vs[k]) {
      IntRoundTrip(vs[k]);
    }
  }

  /** Four integer pairs for the grid and players, whose values read as `vs`, set those fields. */
  lemma GridValuesRestore(start: GameConfig, pairs: seq<(String, String)>, vs: seq<int>)
    requires |pairs| == 4 && |vs| == 4 && forall k :: 0 <= k < 4 ==> ParseInt(pairs[k].1) == Some(vs[k])
    requires pairs[0].0 == "gridWidth" && pairs[1].0 == "gridHeight" && pairs[2].0 == "playerCount"
    requires pairs[3].0 == "humanPlayerIndex"
    ensures ApplyPairs(start, pairs)
         == Some(start.(gridWidth := vs[0], gridHeight := vs[1], playerCount := vs[2], humanPlayerIndex := vs[3]))
  {
    IntKeysListed();
    assert pairs[0..] == pairs;
    var c1 := SetIntKey(start, "gridWidth", vs[0]);
    IntPairStep(start, pairs, 0, vs[0]);
    var c2 := SetIntKey(c1, "gridHeight", vs[1]);
    IntPairStep(c1, pairs, 1, vs[1]);
    var c3 := SetIntKey(c2, "playerCount", vs[2]);
    IntPairStep(c2, pairs, 2, vs[2]);
    IntPairStep(c3, pairs, 3, vs[3]);
    assert pairs[4..] == [];
    SetIntKeyFields(start, c1, c2, c3, vs[0], vs[1], vs[2], vs[3]);
  }

  /** Four integer pairs for the territories and dice, whose values read as `vs`, set those fields. */
  lemma TerritoryValuesRestore(start: GameConfig, pairs: seq<(String, String)>, vs: seq<int>)
    requires |pairs| == 4 && |vs| == 4 && forall k :: 0 <= k < 4 ==> ParseInt(pairs[k].1) == Some(vs[k])
    requires pairs[0].0 == "targetTerritoryCount" && pairs[1].0 == "minTerritorySize"
    requires pairs[2].0 == "maxTerritorySize" && pairs[3].0 == "startingDicePerPlayer"
    ensures ApplyPairs(start, pairs)
         == Some(start.(targetTerritoryCount := vs[0], minTerritorySize := vs[1], maxTerritorySize := vs[2],
                        startingDicePerPlayer := vs[3]))
  {
    IntKeysListed();
    assert pairs[0..] == pairs;
    var c1 := SetIntKey(start, "targetTerritoryCount", vs[0]);
    IntPairStep(start, pairs, 0, vs[0]);
    var c2 := SetIntKey(c1, "minTerritorySize", vs[1]);
    IntPairStep(c1, pairs, 1, vs[1]);
    var c3 := SetIntKey(c2, "maxTerritorySize", vs[2]);
    IntPairStep(c2, pairs, 2, vs[2]);
    IntPairStep(c3, pairs, 3, vs[3]);
    assert pairs[4..] == [];
    SetTerritoryKeysFields(start, c1, c2, c3, vs[0], vs[1], vs[2], vs[3]);
  }

  /**
   * The option pairs (the hex size, the seed read as `seed`, and three
   * integers read as `f`, `m` and `k`) skip the hex size and set the rest.
   */
  lemma OptionValuesRestore(start: GameConfig, pairs: seq<(String, String)>, seed: nat, f: int, m: int, k: int)
    requires |pairs| == 5 && seed < 0x1_0000_0000
    requires pairs[0].0 == "hexSize" && pairs[1].0 == "seed" && pairs[2].0 == "fillHoles"
    requires pairs[3].0 == "minHoleSize" && pairs[4].0 == "keepLargestIslandOnly"
    requires ParseUnsigned(pairs[1].1) == Some(seed)
    requires ParseInt(pairs[2].1) == Some(f) && ParseInt(pairs[3].1) == Some(m) && ParseInt(pairs[4].1) == Some(k)
    ensures ApplyPairs(start, pairs)
         == Some(start.(seed := seed, fillHoles := f != 0, minHoleSize := m, keepLargestIslandOnly := k != 0))
  {
    IntKeysListed();
    assert pairs[0..] == pairs;
    assert "hexSize" != "seed";
    ApplyStep(start, pairs, 0, start);
    var c1 := start.(seed := seed);
    ApplyStep(start, pairs, 1, c1);
    var c2 := SetIntKey(c1, "fillHoles", f);
    IntPairStep(c1, pairs, 2, f);
    var c3 := SetIntKey(c2, "minHoleSize", m);
    IntPairStep(c2, pairs, 3, m);
    IntPairStep(c3, pairs, 4, k);
    assert pairs[5..] == [];
    SetOptionKeysFields(c1, c2, c3, f, m, k);
  }

  /** The grid pairs restore the grid size and the players. */
  lemma RestoreGridAndPlayers(c: GameConfig, start: GameConfig)
    requires Representable(c)
    ensures ApplyPairs(start, GridPairs(c))
         == Some(start.(gridWidth := c.gridWidth, gridHeight := c.gridHeight, playerCount := c.playerCount,
                        humanPlayerIndex := c.humanPlayerIndex))
  {
    var vs := [c.gridWidth, c.gridHeight, c.playerCount, c.humanPlayerIndex];
    IntTextsRead(GridPairs(c), vs);
    GridValuesRestore(start, GridPairs(c), vs);
  }

  /** The territory pairs restore the territory sizes and the starting dice. */
  lemma RestoreTerritories(c: GameConfig, start: GameConfig)
    requires Representable(c)
    ensures ApplyPairs(start, TerritoryPairs(c))
         == Some(start.(targetTerritoryCount := c.targetTerritoryCount, minTerritorySize := c.minTerritorySize,
                        maxTerritorySize := c.maxTerritorySize, startingDicePerPlayer := c.startingDicePerPlayer))
  {
    var vs := [c.targetTerritoryCount, c.minTerritorySize, c.maxTerritorySize, c.startingDicePerPlayer];
    IntTextsRead(TerritoryPairs(c), vs);
    TerritoryValuesRestore(start, TerritoryPairs(c), vs);
  }

  /** The option pairs skip the hex size and restore the seed and the island options. */
  lemma RestoreOptions(c: GameConfig, hexSizeText: String, start: GameConfig)
    requires Representable(c)
    ensures ApplyPairs(start, OptionPairs(c, hexSizeText))
         == Some(start.(seed := c.seed, fillHoles := c.fillHoles, minHoleSize := c.minHoleSize,
                        keepLargestIslandOnly := c.keepLargestIslandOnly))
  {
    var f := if c.fillHoles then 1 else 0;
    var k := if c.keepLargestIslandOnly then 1 else 0;
    FlagText(c.fillHoles);
    FlagText(c.keepLargestIslandOnly);
    var pairs := OptionPairs(c, hexSizeText);
    IntTextsRead(pairs[2..], [f, c.minHoleSize, k]);
    assert pairs[2..][0] == pairs[2] && pairs[2..][1] == pairs[3] && pairs[2..][2] == pairs[4];
    NatRoundTrip(c.seed);
    OptionValuesRestore(start, OptionPairs(c, hexSizeText), c.seed, f, c.minHoleSize, k);
  }

  /** The configuration a replay restores: every written field, and the radius of the configuration it starts from. */
  function Restored(c: GameConfig, start: GameConfig): GameConfig
  {
    c.(gridRadius := start.gridRadius)
  }

  /** Every integer field fits a 32-bit `int` and the seed fits 32 bits, as in the game. */
  predicate Representable(c: GameConfig)
  {
    && INT_MIN <= c.gridWidth <= INT_MAX && INT_MIN <= c.gridHeight <= INT_MAX
    && INT_MIN <= c.playerCount <= INT_MAX && INT_MIN <= c.humanPlayerIndex <= INT_MAX
    && INT_MIN <= c.targetTerritoryCount <= INT_MAX && INT_MIN <= c.minTerritorySize <= INT_MAX
    && INT_MIN <= c.maxTerritorySize <= INT_MAX && INT_MIN <= c.startingDicePerPlayer <= INT_MAX
    && INT_MIN <= c.minHoleSize <= INT_MAX && c.seed < 0x1_0000_0000
  }

  /** The written pairs, applied to any starting configuration, restore the written configuration. */
  lemma ConfigPairsRestore(c: GameConfig, hexSizeText: String, start: GameConfig)
    requires Representable(c)
    ensures ApplyPairs(start, ConfigPairs(c, hexSizeText)) == Some(Restored(c, start))
  {
    RestoreGridAndPlayers(c, start);
    var c1 := start.(gridWidth := c.gridWidth, gridHeight := c.gridHeight, playerCount := c.playerCount,
                     humanPlayerIndex := c.humanPlayerIndex);
    RestoreTerritories(c, c1);
    var c2 := c1.(targetTerritoryCount := c.targetTerritoryCount, minTerritorySize := c.minTerritorySize,
                  maxTerritorySize := c.maxTerritorySize, startingDicePerPlayer := c.startingDicePerPlayer);
    RestoreOptions(c, hexSizeText, c2);
    ApplyPairsAppend(start, GridPairs(c), TerritoryPairs(c));
    ApplyPairsAppend(start, GridPairs(c) + TerritoryPairs(c), OptionPairs(c, hexSizeText));
  }

  /**
   * Reading back what recording writes before the first attack (the
   * configuration, a blank line and `[ACTIONS]`) restores the configuration
   * and stops right after `[ACTIONS]`.
   */
  lemma ConfigRoundTrip(c: GameConfig, hexSizeText: String, start: GameConfig, rest: seq<String>)
    requires Representable(c)
    ensures ScanConfig(ConfigLines(c, hexSizeText) + ["", "[ACTIONS]"] + rest, false, start) == Finished(Restored(c, start), rest)
  {
    ConfigPairsRestore(c, hexSizeText, start);
    ConfigKeysPlain(c, hexSizeText);
    SectionReadsBack(ConfigPairs(c, hexSizeText), rest, start, Restored(c, start));
  }

  /** A written section whose keys are plain and whose values are accepted reads back as its pairs applied in order. */
  lemma SectionReadsBack(pairs: seq<(String, String)>, rest: seq<String>, c: GameConfig, c': GameConfig)
    requires forall k :: 0 <= k < |pairs| ==> PlainKey(pairs[k].0)
    requires ApplyPairs(c, pairs) == Some(c')
    ensures ScanConfig([HEADER, "[CONFIG]"] + PairLines(pairs) + ["", "[ACTIONS]"] + rest, false, c) == Finished(c', rest)
  {
    var tail := ["", "[ACTIONS]"] + rest;
    var lines := [HEADER, "[CONFIG]"] + PairLines(pairs) + ["", "[ACTIONS]"] + rest;
    assert lines[0] == HEADER && lines[1] == "[CONFIG]";
    assert lines[2..] == PairLines(pairs) + tail;
    ScanConfigStep(lines, 0, false, c);
    assert HEADER[0] == '#';
    ScanConfigStep(lines, 1, false, c);
    ScanPairLines(pairs, tail, c);
    SectionEnds(rest, c');
  }

  /** A blank line and `[ACTIONS]` end the configuration section. */
  lemma SectionEnds(rest: seq<String>, c: GameConfig)
    ensures ScanConfig(["", "[ACTIONS]"] + rest, true, c) == Finished(c, rest)
  {
    var tail := ["", "[ACTIONS]"] + rest;
    ScanConfigStep(tail, 0, true, c);
    ScanConfigStep(tail, 1, true, c);
    assert tail[1] == "[ACTIONS]" && tail[2..] == rest;
  }

  /** The keys written are plain: none is blank, starts a comment or a section marker, or holds `=`. */
  lemma ConfigKeysPlain(c: GameConfig, hexSizeText: String)
    ensures forall k :: 0 <= k < |ConfigPairs(c, hexSizeText)| ==> PlainKey(ConfigPairs(c, hexSizeText)[k].0)
  {
    var g, t, o := GridPairs(c), TerritoryPairs(c), OptionPairs(c, hexSizeText);
    GroupKeysPlain(c, hexSizeText);
    forall k | 0 <= k < |g + t + o| ensures PlainKey((g + t + o)[k].0) {
      if k < |g| {
        assert (g + t + o)[k] == g[k];
      } else if k < |g| + |t| {
        assert (g + t + o)[k] == t[k - |g|];
      } else {
        assert (g + t + o)[k] == o[k - |g| - |t|];
      }
    }
  }

  /** The keys of each block are plain. */
  lemma GroupKeysPlain(c: GameConfig, hexSizeText: String)
    ensures forall k :: 0 <= k < |GridPairs(c)| ==> PlainKey(GridPairs(c)[k].0)
    ensures forall k :: 0 <= k < |TerritoryPairs(c)| ==> PlainKey(TerritoryPairs(c)[k].0)
    ensures forall k :: 0 <= k < |OptionPairs(c, hexSizeText)| ==> PlainKey(OptionPairs(c, hexSizeText)[k].0)
  {
    GridKeysPlain();
    TerritoryKeysPlain();
    OptionKeysPlain();
  }

  lemma GridKeysPlain()
    ensures PlainKey("gridWidth") && PlainKey("gridHeight") && PlainKey("playerCount") && PlainKey("humanPlayerIndex")
  {
    KeysPlain(["gridWidth", "gridHeight", "playerCount", "humanPlayerIndex"]);
  }

  lemma TerritoryKeysPlain()
    ensures PlainKey("targetTerritoryCount") && PlainKey("minTerritorySize")
    ensures PlainKey("maxTerritorySize") && PlainKey("startingDicePerPlayer")
  {
    KeysPlain(["targetTerritoryCount", "minTerritorySize", "maxTerritorySize", "startingDicePerPlayer"]);
  }

  lemma OptionKeysPlain()
    ensures PlainKey("hexSize") && PlainKey("seed") && PlainKey("fillHoles") && PlainKey("minHoleSize")
    ensures PlainKey("keepLargestIslandOnly")
  {
    KeysPlain(["hexSize", "seed", "fillHoles", "minHoleSize", "keepLargestIslandOnly"]);
  }

  /** Keys made of letters only are plain. */
  lemma KeysPlain(keys: seq<String>)
    requires forall k :: 0 <= k < |keys| ==> |keys[k]| > 0 && forall j :: 0 <= j < |keys[k]| ==> 'a' <= keys[k][j] <= 'z' || 'A' <= keys[k][j] <= 'Z'
    ensures forall k :: 0 <= k < |keys| ==> PlainKey(keys[k])
  {
  }

  /** Lines before `[CONFIG]` are never applied, whatever they hold. */
  lemma {:induction false} OutsideSectionIgnored(before: seq<String>, after: seq<String>, c: GameConfig)
    requires forall k :: 0 <= k < |before| ==> before[k] != "[CONFIG]" && before[k] != "[ACTIONS]"
    ensures ScanConfig(before + ["[CONFIG]"] + after, false, c) == ScanConfig(after, true, c)
  {
    if |before| > 0 {
      assert (before + ["[CONFIG]"] + after)[1..] == before[1..] + ["[CONFIG]"] + after;
      OutsideSectionIgnored(before[1..], after, c);
    } else {
      assert ([] + ["[CONFIG]"] + after)[1..] == after;
    }
  }

  /** An unknown key, or a line without `=`, inside the section changes nothing. */
  lemma UnknownKeyIgnored(line: String, rest: seq<String>, c: GameConfig)
    requires |line| > 0 && line[0] != '#' && line[0] != '['
    requires SplitAtEquals(line).None? || (SplitAtEquals(line).value.0 !in INT_KEYS && SplitAtEquals(line).value.0 != "seed")
    ensures ScanConfig([line] + rest, true, c) == ScanConfig(rest, true, c)
  {
    assert ([line] + rest)[1..] == rest;
  }

  // ---------------------------------------------------------------------
  // The actions section

  /** An attack as one line of five comma-separated numbers, as `RecordAction` writes it. */
  function ActionLine(a: CombatAction): String
  {
    Join(ActionFields(a))
  }

  /** Each token read with `std::stoi`, or nothing once one is rejected. */
  function ParseFields(tokens: seq<String>): Option<seq<int>>
  {
    if |tokens| == 0 then Some([])
    else
      match ParseFields(tokens[..|tokens| - 1])
      case None => None
      case Some(vs) =>
        match ParseInt(tokens[|tokens| - 1])
        case None => None
        case Some(v) => Some(vs + [v])
  }

  /** Five values as an attack, each cast to its field's width: 16 bits for territories, 8 bits for the rest. */
  function ToAction(vs: seq<int>): CombatAction
    requires |vs| == 5
  {
    CombatAction(Wrap(vs[0], 0x1_0000), Wrap(vs[1], 0x1_0000), Wrap(vs[2], 0x100), Wrap(vs[3], 0x100), Wrap(vs[4], 0x100))
  }

  /** What one line of the actions section amounts to. */
  datatype LineRead = Skipped | Aborted | Read(action: CombatAction)

  /**
   * A blank or `#` line is skipped; a token the parser rejects aborts the
   * reading; a line of other than five values is skipped; five values make
   * an attack.
   */
  function ReadActionLine(line: String): LineRead
  {
    if |line| == 0 || line[0] == '#' then Skipped
    else
      match ParseFields(SplitFields(line))
      case None => Aborted
      case Some(vs) => if |vs| != 5 then Skipped else Read(ToAction(vs))
  }

  /** The attacks read from `lines` before any abort, and whether reading finished without one. */
  function ScanActions(lines: seq<String>): (seq<CombatAction>, bool)
  {
    if |lines| == 0 then ([], true) else Then(ReadActionLine(lines[0]), ScanActions(lines[1..]))
  }

  /** The outcome of reading one line followed by the outcome `later` of reading the lines after it. */
  function Then(read: LineRead, later: (seq<CombatAction>, bool)): (seq<CombatAction>, bool)
  {
    match read
    case Skipped => later
    case Aborted => ([], false)
    case Read(a) => ([a] + later.0, later.1)
  }

  /** One step of reading: the first line of `lines[i..]` decides how the rest is read. */
  lemma ScanActionsStep(lines: seq<String>, i: nat)
    requires i < |lines|
    ensures ScanActions(lines[i..]) == Then(ReadActionLine(lines[i]), ScanActions(lines[i + 1..]))
  {
    assert lines[i..][0] == lines[i] && lines[i..][1..] == lines[i + 1..];
  }

  /** An attack whose fields fit their widths: 16-bit territory ids, 8-bit player and dice counts. */
  predicate InRange(a: CombatAction)
  {
    a.attackerId < 0x1_0000 && a.defenderId < 0x1_0000 && a.attackerPlayer < 0x100 && a.attackerDice < 0x100 && a.defenderDice < 0x100
  }

  /** Tokens that each read as a value read as the list of those values. */
  lemma {:induction false} ParseFieldsAll(tokens: seq<String>, vs: seq<int>)
    requires |tokens| == |vs| && forall k :: 0 <= k < |tokens| ==> ParseInt(tokens[k]) == Some(vs[k])
    ensures ParseFields(tokens) == Some(vs)
    decreases |tokens|
  {
    if |tokens| > 0 {
      var n := |tokens| - 1;
      forall k | 0 <= k < n ensures ParseInt(tokens[..n][k]) == Some(vs[..n][k]) {
        assert tokens[..n][k] == tokens[k] && vs[..n][k] == vs[k];
      }
      ParseFieldsAll(tokens[..n], vs[..n]);
      assert ParseInt(tokens[n]) == Some(vs[n]);
      assert vs[..n] + [vs[n]] == vs;
    }
  }

  /** The decimal text of each field of an attack. */
  function ActionFields(a: CombatAction): (r: seq<String>)
    ensures |r| == 5 && forall k :: 0 <= k < 5 ==> |r[k]| > 0 && AllDigits(r[k])
  {
    NatToStringDigits(a.attackerId); NatToStringDigits(a.defenderId); NatToStringDigits(a.attackerPlayer);
    NatToStringDigits(a.attackerDice); NatToStringDigits(a.defenderDice);
    [NatToString(a.attackerId), NatToString(a.defenderId), NatToString(a.attackerPlayer),
     NatToString(a.attackerDice), NatToString(a.defenderDice)]
  }

  /** The fields of an attack that fits read back as its five numbers. */
  lemma ActionFieldsReadBack(a: CombatAction)
    requires InRange(a)
    ensures ParseFields(ActionFields(a)) == Some([a.attackerId, a.defenderId, a.attackerPlayer, a.attackerDice, a.defenderDice])
  {
    NatRoundTrip(a.attackerId);
    NatRoundTrip(a.defenderId);
    NatRoundTrip(a.attackerPlayer);
    NatRoundTrip(a.attackerDice);
    NatRoundTrip(a.defenderDice);
    ParseFieldsAll(ActionFields(a), [a.attackerId, a.defenderId, a.attackerPlayer, a.attackerDice, a.defenderDice]);
  }

  /** A line written for an attack whose fields fit reads back as the same attack. */
  lemma ActionLineRoundTrip(a: CombatAction)
    requires InRange(a)
    ensures ReadActionLine(ActionLine(a)) == Read(a)
  {
    ActionLineSplits(a);
    ActionFieldsReadBack(a);
    ToActionInRange(a);
  }

  /** The line for an attack is not blank, not a comment, and splits back into its fields. */
  lemma ActionLineSplits(a: CombatAction)
    ensures |ActionLine(a)| > 0 && ActionLine(a)[0] != '#' && SplitFields(ActionLine(a)) == ActionFields(a)
  {
    var fields := ActionFields(a);
    forall k | 0 <= k < |fields| ensures |fields[k]| > 0 && ',' !in fields[k] {
      assert AllDigits(fields[k]);
    }
    SplitJoin(fields);
    var line := ActionLine(a);
    assert line == fields[0] + "," + Join(fields[1..]);
    assert line[0] == fields[0][0];
  }

  /** Casting values that fit their widths keeps them. */
  lemma ToActionInRange(a: CombatAction)
    requires InRange(a)
    ensures ToAction([a.attackerId, a.defenderId, a.attackerPlayer, a.attackerDice, a.defenderDice]) == a
  {
  }

  /** Recorded lines for attacks that fit read back as those attacks, in order. */
  lemma RecordedActionsReadBack(acts: seq<CombatAction>)
    requires forall k :: 0 <= k < |acts| ==> InRange(acts[k])
    ensures ScanActions(ActionLines(acts)) == (acts, true)
  {
    var lines := ActionLines(acts);
    forall k | 0 <= k < |acts| ensures ReadActionLine(lines[k]) == Read(acts[k]) {
      ActionLineRoundTrip(acts[k]);
    }
    LinesReadBack(lines, acts);
  }

  /** Lines that each read as an attack read as the list of those attacks. */
  lemma {:induction false} LinesReadBack(lines: seq<String>, acts: seq<CombatAction>)
    requires |lines| == |acts| && forall k :: 0 <= k < |lines| ==> ReadActionLine(lines[k]) == Read(acts[k])
    ensures ScanActions(lines) == (acts, true)
  {
    if |lines| > 0 {
      ScanActionsStep(lines, 0);
      assert lines[0..] == lines;
      LinesReadBack(lines[1..], acts[1..]);
      assert acts == [acts[0]] + acts[1..];
    }
  }

  /** The lines written for a list of attacks. */
  function ActionLines(acts: seq<CombatAction>): (r: seq<String>)
    ensures |r| == |acts| && forall k :: 0 <= k < |acts| ==> r[k] == ActionLine(acts[k])
  {
    if |acts| == 0 then [] else [ActionLine(acts[0])] + ActionLines(acts[1..])
  }

  /**
   * Reading is line by line: the attacks of two blocks of lines are those
   * of the first followed, unless the first aborts, by those of the second.
   */
  lemma {:induction false} ScanActionsAppend(a: seq<String>, b: seq<String>)
    ensures ScanActions(a + b) ==
      if ScanActions(a).1 then (ScanActions(a).0 + ScanActions(b).0, ScanActions(b).1) else ScanActions(a)
  {
    if |a| > 0 {
      assert (a + b)[0] == a[0] && (a + b)[1..] == a[1..] + b;
      ScanActionsAppend(a[1..], b);
      match ReadActionLine(a[0])
      case Skipped =>
      case Aborted =>
      case Read(x) =>
        assert [x] + ScanActions(a[1..]).0 + ScanActions(b).0 == [x] + (ScanActions(a[1..]).0 + ScanActions(b).0);
    } else {
      assert a + b == b;
      assert ScanActions(a).0 + ScanActions(b).0 == ScanActions(b).0;
    }
  }

  /** A line with a token the parser rejects ends the reading with failure, whatever follows. */
  lemma BadFieldAborts(line: String, rest: seq<String>)
    requires |line| > 0 && line[0] != '#' && ParseFields(SplitFields(line)).None?
    ensures ScanActions([line] + rest) == ([], false)
  {
  }

  /** A line of valid numbers that are not five is skipped, and reading goes on. */
  lemma WrongCountSkipped(line: String, rest: seq<String>)
    requires |line| > 0 && line[0] != '#'
    requires ParseFields(SplitFields(line)).Some? && |ParseFields(SplitFields(line)).value| != 5
    ensures ScanActions([line] + rest) == ScanActions(rest)
  {
    assert ([line] + rest)[1..] == rest;
  }

  /** Blank and comment lines are skipped. */
  lemma CommentSkipped(line: String, rest: seq<String>)
    requires |line| == 0 || line[0] == '#'
    ensures ScanActions([line] + rest) == ScanActions(rest)
  {
    assert ([line] + rest)[1..] == rest;
  }

  // ---------------------------------------------------------------------
  // Recording and playback

  /** How loading a replay ends. */
  datatype LoadResult = Loaded | Rejected | Crashed

  /**
   * The recorder and player. `written` is the text written to the open
   * replay file, line by line.
   */
  class ReplaySystem {
    var written: seq<String>
    var fileOpen: bool
    var config: GameConfig
    var actions: seq<CombatAction>
    var currentActionIndex: nat
    var isRecording: bool
    var isLoaded: bool

    /** The cursor never passes the end, and recording happens into an open file. */
    ghost predicate Valid()
      reads this
    {
      currentActionIndex <= |actions| && (isRecording ==> fileOpen)
    }

    constructor()
      ensures Valid()
      ensures written == [] && !fileOpen && config == DefaultConfig && actions == []
      ensures currentActionIndex == 0 && !isRecording && !isLoaded
    {
      written, fileOpen, config, actions := [], false, DefaultConfig, [];
      currentActionIndex, isRecording, isLoaded := 0, false, false;
    }

    /**
     * Starts recording to a fresh file: any recording in progress is
     * stopped first; when the file opens (`fileOpened`), the configuration is
     * remembered and written, followed by a blank line and `[ACTIONS]`.
     */
    method StartRecording(c: GameConfig, hexSizeText: String, fileOpened: bool) returns (ok: bool)
      requires Valid()
      modifies this`written, this`fileOpen, this`config, this`isRecording
      ensures Valid()
      ensures ok == fileOpened
      ensures ok ==> written == ConfigLines(c, hexSizeText) + ["", "[ACTIONS]"] && config == c && isRecording && fileOpen
      ensures !ok ==> !isRecording && written == old(written) && config == old(config)
    {
      if isRecording {
        StopRecording();
      }
      if !fileOpened {
        return false;
      }
      fileOpen := true;
      written := [];
      config := c;
      WriteConfig(c, hexSizeText);
      written := written + ["", "[ACTIONS]"];
      isRecording := true;
      return true;
    }

    /** Writes the configuration section: the header comment, the section marker and one `key=value` line per field. */
    method WriteConfig(c: GameConfig, hexSizeText: String)
      modifies this`written
      ensures written == old(written) + ConfigLines(c, hexSizeText)
    {
      written := written + [HEADER, "[CONFIG]"];
      WritePairs(ConfigPairs(c, hexSizeText));
    }

    /** Writes one `key=value` line per pair, in order. */
    method WritePairs(pairs: seq<(String, String)>)
      modifies this`written
      ensures written == old(written) + PairLines(pairs)
    {
      for k := 0 to |pairs|
        invariant written == old(written) + PairLines(pairs[..k])
      {
        PairLinesSnoc(pairs, k);
        written := written + [pairs[k].0 + "=" + pairs[k].1];
      }
      WholePrefix(pairs);
    }

    /** Appends the line for `action`, if recording. */
    method RecordAction(action: CombatAction)
      requires Valid()
      modifies this`written
      ensures Valid()
      ensures written == if isRecording && fileOpen then old(written) + [ActionLine(action)] else old(written)
    {
      if !isRecording || !fileOpen {
        return;
      }
      written := written + [ActionLine(action)];
    }

    /** Closes the file if recording, and stops recording. */
    method StopRecording()
      requires Valid()
      modifies this`fileOpen, this`isRecording
      ensures Valid()
      ensures !isRecording
      ensures fileOpen == (old(fileOpen) && !old(isRecording))
    {
      if isRecording && fileOpen {
        fileOpen := false;
      }
      isRecording := false;
    }

    /**
     * Reads the configuration section, field by field into `config`:
     * `threw` when a value is rejected (the exception escapes), otherwise
     * `next` is the first line after it.
     */
    method ParseConfig(lines: seq<String>) returns (threw: bool, next: nat)
      modifies this`config
      ensures var scan := ScanConfig(lines, false, old(config));
        && config == scan.config
        && (threw <==> scan.Threw?)
        && (!threw ==> next <= |lines| && lines[next..] == scan.rest)
    {
      var inConfig := false;
      var i := 0;
      while i < |lines|
        invariant i <= |lines|
        invariant ScanConfig(lines[i..], inConfig, config) == ScanConfig(lines, false, old(config))
      {
        ScanConfigStep(lines, i, inConfig, config);
        var effect := ConfigLineEffect(lines[i], inConfig, config);
        i := i + 1;
        match effect
        case SectionEnd =>
          return false, i;
        case Throws =>
          return true, i;
        case Continue(nowIn, c') =>
          inConfig, config := nowIn, c';
      }
      return false, i;
    }

    /** Reads the comma-separated values of one line, or fails at the first token the parser rejects. */
    method ParseValues(line: String) returns (ok: bool, values: seq<int>)
      ensures ok <==> ParseFields(SplitFields(line)).Some?
      ensures ok ==> values == ParseFields(SplitFields(line)).value
    {
      var tokens := SplitFields(line);
      values := [];
      for k := 0 to |tokens|
        invariant ParseFields(tokens[..k]) == Some(values)
      {
        PrefixStep(tokens, k);
        var v := ParseInt(tokens[k]);
        if v.None? {
          assert ParseFields(tokens[..k + 1]).None?;
          NoneStaysNone(tokens, k + 1);
          return false, values;
        }
        values := values + [v.value];
      }
      WholePrefix(tokens);
      return true, values;
    }

    /** Reads one line of the actions section. */
    method ReadLine(line: String) returns (read: LineRead)
      ensures read == ReadActionLine(line)
    {
      if |line| == 0 || line[0] == '#' {
        return Skipped;
      }
      var parsed, values := ParseValues(line);
      if !parsed {
        return Aborted;
      }
      if |values| != 5 {
        return Skipped;
      }
      return Read(ToAction(values));
    }

    /**
     * Reads attack lines from `lines[start..]`, appending each attack read:
     * blank and `#` lines and lines of other than five values are skipped;
     * a token the parser rejects stops the reading with failure, keeping
     * the attacks read so far.
     */
    method ParseActions(lines: seq<String>, start: nat) returns (ok: bool)
      requires start <= |lines|
      modifies this`actions
      ensures actions == old(actions) + ScanActions(lines[start..]).0
      ensures ok == ScanActions(lines[start..]).1
    {
      var i := start;
      while i < |lines|
        invariant start <= i <= |lines|
        invariant old(actions) + ScanActions(lines[start..]).0 == actions + ScanActions(lines[i..]).0
        invariant ScanActions(lines[start..]).1 == ScanActions(lines[i..]).1
      {
        var read := ReadLine(lines[i]);
        ScanActionsStep(lines, i);
        i := i + 1;
        match read
        case Skipped =>
        case Aborted => return false;
        case Read(action) =>
          assert actions + [action] + ScanActions(lines[i..]).0 == actions + ([action] + ScanActions(lines[i..]).0);
          actions := actions + [action];
      }
      return true;
    }

    /**
     * Loads a replay from its lines: clears the attacks, rewinds and resets
     * the configuration, then reads the configuration section and the
     * attacks after it. Only a complete read marks the replay loaded.
     */
    method LoadReplay(found: bool, lines: seq<String>) returns (result: LoadResult)
      requires Valid()
      modifies this`config, this`actions, this`currentActionIndex, this`isLoaded
      ensures Valid()
      ensures !found ==> result == Rejected && config == old(config) && actions == old(actions)
                         && currentActionIndex == old(currentActionIndex) && isLoaded == old(isLoaded)
      ensures found ==> currentActionIndex == 0
      ensures found ==> var scan := ScanConfig(lines, false, DefaultConfig);
        && config == scan.config
        && (scan.Threw? ==> result == Crashed && actions == [] && isLoaded == old(isLoaded))
        && (scan.Finished? ==>
              && actions == ScanActions(scan.rest).0
              && (result == Loaded <==> ScanActions(scan.rest).1)
              && (result == Loaded ==> isLoaded)
              && (result != Loaded ==> result == Rejected && isLoaded == old(isLoaded)))
    {
      if !found {
        return Rejected;
      }
      actions := [];
      currentActionIndex := 0;
      config := DefaultConfig;
      var threw, next := ParseConfig(lines);
      if threw {
        return Crashed;
      }
      var ok := ParseActions(lines, next);
      if !ok {
        return Rejected;
      }
      isLoaded := true;
      return Loaded;
    }

    /** There is an attack left to replay. */
    predicate HasNextAction()
      reads this
    {
      isLoaded && currentActionIndex < |actions|
    }

    /** The next attack to replay, advancing the cursor; the empty action when there is none. */
    method GetNextAction() returns (action: CombatAction)
      requires Valid()
      modifies this`currentActionIndex
      ensures Valid()
      ensures old(HasNextAction()) ==> action == actions[old(currentActionIndex)] && currentActionIndex == old(currentActionIndex) + 1
      ensures !old(HasNextAction()) ==> action == NoAction && currentActionIndex == old(currentActionIndex)
    {
      if !HasNextAction() {
        return NoAction;
      }
      action := actions[currentActionIndex];
      currentActionIndex := currentActionIndex + 1;
    }
  }

  /** Once a token is rejected, longer token lists are rejected too. */
  lemma {:induction false} NoneStaysNone(tokens: seq<String>, k: nat)
    requires k <= |tokens| && ParseFields(tokens[..k]).None?
    ensures ParseFields(tokens).None?
    decreases |tokens| - k
  {
    if k < |tokens| {
      PrefixStep(tokens, k);
      NoneStaysNone(tokens, k + 1);
    } else {
      WholePrefix(tokens);
    }
  }

  /**
   * A whole recording reads back: loading the lines written while recording
   * configuration `c` and then the attacks `acts` restores `c` (all but the
   * grid radius, which is not written) and exactly `acts`, in order.
   */
  lemma RecordingReadsBack(c: GameConfig, hexSizeText: String, acts: seq<CombatAction>)
    requires Representable(c) && forall k :: 0 <= k < |acts| ==> InRange(acts[k])
    ensures var lines := ConfigLines(c, hexSizeText) + ["", "[ACTIONS]"] + ActionLines(acts);
      && ScanConfig(lines, false, DefaultConfig) == Finished(Restored(c, DefaultConfig), ActionLines(acts))
      && ScanActions(ActionLines(acts)) == (acts, true)
  {
    ConfigRoundTrip(c, hexSizeText, DefaultConfig, ActionLines(acts));
    RecordedActionsReadBack(acts);
  }
}
