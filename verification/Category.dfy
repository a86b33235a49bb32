/**
Log categories. A category keeps a bitmap of the levels that any of its rules would put out;
the bitmap answers exactly as asking every rule would.
*/
module Category {
  import opened Common

  const LEVELS := 256
  const BYTES := 32

  /** Which levels a rule lets through: all, from its own on, its own only, or all but its own. */
  datatype Sign = All | From | Only | Except

  /** Does a rule with this sign and level put an event of level lv out? */
  predicate Reaches(sign: Sign, level: int, lv: int) {
    match sign
    case All => true
    case From => lv >= level
    case Only => lv == level
    case Except => lv != level
  }

  // ---------------------------------------------------------------- bits

  /** Level lv's bit in its byte. */
  predicate BitOf(b: bv8, r: nat)
    requires r < 8
  {
    (b >> (7 - r)) & 1 == 1
  }

  predicate Bit(bytes: seq<bv8>, lv: int)
    requires |bytes| == BYTES && 0 <= lv < LEVELS
  {
    BitOf(bytes[lv / 8], lv % 8)
  }

  function One(r: nat): bv8
    requires r < 8
  {
    1 << (7 - r)
  }

  /** The low 8 - r bits, as the low byte of a wider complement. */
  function Tail(r: nat): bv8
    requires r < 8
  {
    (!((0xff as bv16) << (8 - r)) & 0xff) as bv8
  }

  lemma OneBit(r: nat, s: nat)
    requires r < 8 && s < 8
    ensures BitOf(One(r), s) <==> r == s
    ensures BitOf(!One(r), s) <==> r != s
  {
    if r == 0 {
    } else if r == 1 {
    } else if r == 2 {
    } else if r == 3 {
    } else if r == 4 {
    } else if r == 5 {
    } else if r == 6 {
    } else {
    }
    if s == 0 {
    } else if s == 1 {
    } else if s == 2 {
    } else if s == 3 {
    } else if s == 4 {
    } else if s == 5 {
    } else if s == 6 {
    } else {
    }
  }

  lemma TailBit(r: nat, s: nat)
    requires r < 8 && s < 8
    ensures BitOf(Tail(r), s) <==> s >= r
  {
    if r == 0 {
    } else if r == 1 {
    } else if r == 2 {
    } else if r == 3 {
    } else if r == 4 {
    } else if r == 5 {
    } else if r == 6 {
    } else {
    }
    if s == 0 {
    } else if s == 1 {
    } else if s == 2 {
    } else if s == 3 {
    } else if s == 4 {
    } else if s == 5 {
    } else if s == 6 {
    } else {
    }
  }

  lemma ConstantBits(s: nat)
    requires s < 8
    ensures !BitOf(0, s) && BitOf(0xff, s)
  {
    if s == 0 {
    } else if s == 1 {
    } else if s == 2 {
    } else if s == 3 {
    } else if s == 4 {
    } else if s == 5 {
    } else if s == 6 {
    } else {
    }
  }

  lemma OrBit(a: bv8, b: bv8, s: nat)
    requires s < 8
    ensures BitOf(a | b, s) <==> BitOf(a, s) || BitOf(b, s)
  {
    if s == 0 {
    } else if s == 1 {
    } else if s == 2 {
    } else if s == 3 {
    } else if s == 4 {
    } else if s == 5 {
    } else if s == 6 {
    } else {
    }
  }

  // ---------------------------------------------------------------- rules

  method Fill(bytes: array<bv8>, from: nat, b: bv8)
    requires from <= bytes.Length
    modifies bytes
    ensures forall i | 0 <= i < from :: bytes[i] == old(bytes[i])
    ensures forall i | from <= i < bytes.Length :: bytes[i] == b
  {
    var i := from;
    while i < bytes.Length
      invariant from <= i <= bytes.Length
      invariant forall j | 0 <= j < from :: bytes[j] == old(bytes[j])
      invariant forall j | from <= j < i :: bytes[j] == b
    {
      bytes[i] := b;
      i := i + 1;
    }
  }

  /** The bitmap of a rule, byte by byte. */
  ghost function ByteFor(sign: Sign, level: int, i: int): bv8
    requires 0 <= level < LEVELS
  {
    match sign
    case All => 0xff
    case Only => if i == level / 8 then One(level % 8) else 0
    case Except => if i == level / 8 then !One(level % 8) else 0xff
    case From => if i < level / 8 then 0 else if i == level / 8 then Tail(level % 8) else 0xff
  }

  lemma ByteForReaches(sign: Sign, level: int, lv: int)
    requires 0 <= level < LEVELS && 0 <= lv < LEVELS
    ensures BitOf(ByteFor(sign, level, lv / 8), lv % 8) <==> Reaches(sign, level, lv)
  {
    OneBit(level % 8, lv % 8);
    TailBit(level % 8, lv % 8);
    ConstantBits(lv % 8);
  }

  class Rule {
    const category: string
    const sign: Sign
    const level: int
    const bitmap: array<bv8>

    /** The bitmap says of every level whether the rule would put it out. */
    ghost predicate Valid()
      reads bitmap
    {
      && bitmap.Length == BYTES && category != ""
      && forall lv | 0 <= lv < LEVELS :: Bit(bitmap[..], lv) <==> Reaches(sign, level, lv)
    }

    constructor (category: string, sign: Sign, level: int)
      requires category != "" && 0 <= level < LEVELS
      ensures Valid() && fresh(bitmap) && this.category == category && this.sign == sign && this.level == level
      ensures forall lv | 0 <= lv < LEVELS :: Bit(bitmap[..], lv) <==>
        match sign case All => true case From => lv >= level case Only => lv == level case Except => lv != level
    {
      this.category, this.sign, this.level := category, sign, level;
      bitmap := new bv8[BYTES](_ => 0);
      new;
      match sign {
        case Only =>
          Fill(bitmap, 0, 0);
          bitmap[level / 8] := bitmap[level / 8] | One(level % 8);
        case Except =>
          Fill(bitmap, 0, 0xff);
          bitmap[level / 8] := bitmap[level / 8] & !One(level % 8);
        case All =>
          Fill(bitmap, 0, 0xff);
        case From =>
          Fill(bitmap, 0, 0);
          bitmap[level / 8] := bitmap[level / 8] | Tail(level % 8);
          Fill(bitmap, level / 8 + 1, 0xff);
      }
      forall lv | 0 <= lv < LEVELS ensures Bit(bitmap[..], lv) <==> Reaches(sign, level, lv) {
        assert bitmap[..][lv / 8] == ByteFor(sign, level, lv / 8);
        ByteForReaches(sign, level, lv);
      }
    }

    /** Whether the rule would put out an event of that level. */
    function WouldOutput(lv: int): bool {
      Reaches(sign, level, lv)
    }

    function IsWastebin(): bool {
      category == "!"
    }

    /** Whether the rule is for a category: for all, for that one, or for the ones below a prefix. */
    function Matches(name: string): bool
      requires category != ""
    {
      if category == "*" then true
      else if category == name then true
      else
        var len := |category|;
        category[len - 1] == '_' && var n := if |name| == len - 1 then len - 1 else len; category[..n] <= name
    }
  }

  /** A rule "aa_" is for aa and for every name that begins with aa_, and for no other. */
  lemma PrefixRule(r: Rule, stem: string, name: string)
    requires r.category == stem + "_"
    ensures r.Matches(name) <==> name == stem || (|name| > |stem| && name[..|stem| + 1] == stem + "_")
  {
    var c := r.category;
    assert c[..|stem|] == stem && c[..|c|] == c;
  }

  /** A rule "*" is for every name. */
  lemma StarRule(r: Rule, name: string)
    requires r.category == "*"
    ensures r.Matches(name)
  {
  }

  /** A rule that is neither "*" nor ends in an underscore is for its own name only. */
  lemma OwnNameRule(r: Rule, name: string)
    requires r.category != "" && r.category != "*" && r.category[|r.category| - 1] != '_'
    ensures r.Matches(name) <==> name == r.category
  {
  }

  /**
  The names that a category written in a rule stands for: all, its own, and, when it ends in an
  underscore, the stem and all names that begin with it.
  */
  ghost predicate IsFor(category: string, name: string) {
    || category == "*"
    || category == name
    || exists stem: string :: category == stem + "_" && (name == stem || stem + "_" <= name)
  }

  lemma MatchesIsFor(r: Rule, name: string)
    requires r.category != ""
    ensures r.Matches(name) <==> IsFor(r.category, name)
  {
    var c := r.category;
    var n := |c| - 1;
    if c == "*" {
      StarRule(r, name);
    } else if c[n] == '_' {
      var stem := c[..n];
      assert c == stem + "_";
      PrefixRule(r, stem, name);
      assert forall other: string | c == other + "_" :: other == c[..n];
      assert stem + "_" <= name <==> |name| > n && name[..n + 1] == stem + "_";
    } else {
      OwnNameRule(r, name);
      assert forall other: string :: (other + "_")[|other|] == '_';
    }
  }

  // ---------------------------------------------------------------- picking rules

  /** These rules are the ones at these places, in order. */
  ghost predicate At(picked: seq<Rule>, rules: seq<Rule>, places: seq<nat>) {
    && |picked| == |places|
    && (forall i, j | 0 <= i < j < |places| :: places[i] < places[j])
    && forall j | 0 <= j < |places| :: places[j] < |rules| && picked[j] == rules[places[j]]
  }

  lemma AtSome(picked: seq<Rule>, rules: seq<Rule>, places: seq<nat>)
    requires At(picked, rules, places)
    ensures |picked| == |places| && (picked != [] ==> exists k: nat :: k < |rules| && k in places)
  {
    assert picked != [] ==> places[0] in places && picked[0] == rules[places[0]];
  }

  /** Taking the last rule as well, or not. */
  lemma PickLast(picked: seq<Rule>, rules: seq<Rule>, places: seq<nat>)
    requires rules != [] && At(picked, rules[..|rules| - 1], places)
    ensures At(picked, rules, places) && At(picked + [rules[|rules| - 1]], rules, places + [|rules| - 1])
  {
  }

  /** The rules that would put an event of level lv out, each at its place in the order, and no others. */
  ghost predicate PutOut(picked: seq<Rule>, rules: seq<Rule>, lv: int) {
    exists places: seq<nat> ::
      At(picked, rules, places) && forall k: nat | k < |rules| :: k in places <==> rules[k].WouldOutput(lv)
  }

  /** The rules that are for a name, each at its place in the order; without any, the last rule "!" if there is one. */
  ghost predicate GoesBy(picked: seq<Rule>, rules: seq<Rule>, name: string) {
    exists places: seq<nat> :: At(picked, rules, places) && Chosen(places, rules, name)
  }

  ghost predicate Chosen(places: seq<nat>, rules: seq<Rule>, name: string) {
    if exists r | r in rules :: IsFor(r.category, name) then
      forall k: nat | k < |rules| :: k in places <==> IsFor(rules[k].category, name)
    else
      && |places| <= 1
      && (places == [] ==> forall r | r in rules :: r.category != "!")
      && (forall k | k in places ::
            k < |rules| && rules[k].category == "!" && forall i | k < i < |rules| :: rules[i].category != "!")
  }

  lemma {:induction false} OutputsAt(rules: seq<Rule>, lv: int) returns (places: seq<nat>)
    ensures At(Outputs(rules, lv), rules, places)
    ensures forall k: nat | k < |rules| :: k in places <==> rules[k].WouldOutput(lv)
  {
    places := [];
    if rules != [] {
      var n := |rules| - 1;
      var before := OutputsAt(rules[..n], lv);
      PickLast(Outputs(rules[..n], lv), rules, before);
      places := if rules[n].WouldOutput(lv) then before + [n] else before;
      assert Outputs(rules, lv) + [] == Outputs(rules, lv);
      forall k: nat | k < |rules| ensures k in places <==> rules[k].WouldOutput(lv) {
        assert k < n ==> rules[..n][k] == rules[k];
      }
    }
  }

  lemma OutputsArePutOut(rules: seq<Rule>, lv: int)
    ensures PutOut(Outputs(rules, lv), rules, lv)
  {
    var places := OutputsAt(rules, lv);
  }

  lemma FittingStep(rules: seq<Rule>, name: string)
    requires Named(rules) && rules != []
    ensures var init, last := rules[..|rules| - 1], rules[|rules| - 1];
      Fitting(rules, name) == if IsFor(last.category, name) then Fitting(init, name) + [last] else Fitting(init, name)
  {
    MatchesIsFor(rules[|rules| - 1], name);
    hide IsFor;
  }

  lemma ChosenMore(before: seq<nat>, rules: seq<Rule>, name: string, places: seq<nat>)
    requires rules != [] && forall j | 0 <= j < |before| :: before[j] < |rules| - 1
    requires forall k: nat | k < |rules| - 1 :: k in before <==> IsFor(rules[..|rules| - 1][k].category, name)
    requires places == if IsFor(rules[|rules| - 1].category, name) then before + [|rules| - 1] else before
    ensures forall k: nat | k < |rules| :: k in places <==> IsFor(rules[k].category, name)
  {
    hide IsFor;
    var n := |rules| - 1;
    forall k: nat | k < n ensures k in places <==> IsFor(rules[k].category, name) {
      assert rules[..n][k] == rules[k];
      assert k in places <==> k in before;
    }
    assert n in places <==> IsFor(rules[n].category, name);
  }

  lemma {:induction false} FittingAt(rules: seq<Rule>, name: string) returns (places: seq<nat>)
    requires Named(rules)
    ensures At(Fitting(rules, name), rules, places)
    ensures forall k: nat | k < |rules| :: k in places <==> IsFor(rules[k].category, name)
  {
    hide IsFor;
    places := [];
    if rules != [] {
      hide Fitting;
      var n := |rules| - 1;
      var before := FittingAt(rules[..n], name);
      PickLast(Fitting(rules[..n], name), rules, before);
      FittingStep(rules, name);
      places := if IsFor(rules[n].category, name) then before + [n] else before;
      ChosenMore(before, rules, name, places);
    }
  }

  lemma {:induction false} WastebinAt(rules: seq<Rule>) returns (k: nat)
    ensures Wastebin(rules) == null ==> forall r | r in rules :: r.category != "!"
    ensures Wastebin(rules) != null ==>
      && k < |rules| && Wastebin(rules) == rules[k] && rules[k].category == "!"
      && forall i | k < i < |rules| :: rules[i].category != "!"
  {
    k := 0;
    if rules != [] {
      var n := |rules| - 1;
      if rules[n].IsWastebin() {
        k := n;
      } else {
        k := WastebinAt(rules[..n]);
        assert forall r | r in rules :: r in rules[..n] || r == rules[n];
      }
    }
  }

  /** When no rule is for the name, the wastebin is taken. */
  lemma NoneFits(rules: seq<Rule>, name: string) returns (places: seq<nat>)
    requires Named(rules) && forall k: nat | k < |rules| :: !IsFor(rules[k].category, name)
    ensures At(FitRules(rules, name), rules, places) && Chosen(places, rules, name)
  {
    hide IsFor, Fitting, Wastebin;
    var none := FittingAt(rules, name);
    AtSome(Fitting(rules, name), rules, none);
    var k := WastebinAt(rules);
    places := if Wastebin(rules) == null then [] else [k];
  }

  lemma FitRulesGoBy(rules: seq<Rule>, name: string)
    requires Named(rules)
    ensures GoesBy(FitRules(rules, name), rules, name)
  {
    hide IsFor, Fitting, Wastebin;
    if k: nat :| k < |rules| && IsFor(rules[k].category, name) {
      var places := FittingAt(rules, name);
      assert k in places;
      assert rules[k] in rules;
      assert Chosen(places, rules, name);
    } else {
      var places := NoneFits(rules, name);
    }
  }

  // ---------------------------------------------------------------- categories

  ghost predicate AllValid(rules: seq<Rule>)
    reads set r | r in rules :: r.bitmap
  {
    forall r | r in rules :: r.Valid()
  }

  predicate Named(rules: seq<Rule>) {
    forall r | r in rules :: r.category != ""
  }

  /** The rules for a category, in order. */
  function Fitting(rules: seq<Rule>, name: string): (fit: seq<Rule>)
    requires Named(rules)
    ensures forall r | r in fit :: r in rules
  {
    if rules == [] then []
    else
      var last := rules[|rules| - 1];
      Fitting(rules[..|rules| - 1], name) + if last.Matches(name) then [last] else []
  }

  /** The last rule for what no other rule is for. */
  function Wastebin(rules: seq<Rule>): (w: Rule?)
    ensures w != null ==> w in rules
  {
    if rules == [] then null
    else if rules[|rules| - 1].IsWastebin() then rules[|rules| - 1]
    else Wastebin(rules[..|rules| - 1])
  }

  /** The rules that a category goes by. */
  function FitRules(rules: seq<Rule>, name: string): (fit: seq<Rule>)
    requires Named(rules)
    ensures forall r | r in fit :: r in rules
  {
    var fit := Fitting(rules, name);
    var w := Wastebin(rules);
    if fit != [] || w == null then fit else [w]
  }

  /** Some rule would put out an event of that level. */
  predicate AnyOutputs(rules: seq<Rule>, lv: int) {
    exists r | r in rules :: r.WouldOutput(lv)
  }

  /** The bitmap says of every level whether some rule would put it out. */
  ghost predicate Exact(bits: seq<bv8>, rules: seq<Rule>) {
    |bits| == BYTES && forall lv | 0 <= lv < LEVELS :: Bit(bits, lv) <==> AnyOutputs(rules, lv)
  }

  lemma OverlapExact(bits: seq<bv8>, bits': seq<bv8>, rules: seq<Rule>, r: Rule, added: seq<bv8>)
    requires Exact(bits, rules) && |bits'| == |added| == BYTES
    requires forall i | 0 <= i < BYTES :: bits'[i] == bits[i] | added[i]
    requires forall lv | 0 <= lv < LEVELS :: Bit(added, lv) <==> r.WouldOutput(lv)
    ensures Exact(bits', rules + [r])
  {
    forall lv | 0 <= lv < LEVELS ensures Bit(bits', lv) <==> AnyOutputs(rules + [r], lv) {
      OrBit(bits[lv / 8], added[lv / 8], lv % 8);
      assert Bit(bits', lv) <==> Bit(bits, lv) || Bit(added, lv);
      if AnyOutputs(rules, lv) {
        var q :| q in rules && q.WouldOutput(lv);
        assert q in rules + [r];
      }
      if r.WouldOutput(lv) {
        assert r in rules + [r];
      }
    }
  }

  /** Adds a rule's levels to a bitmap. */
  method Overlap(bits: array<bv8>, r: Rule, ghost rules: seq<Rule>)
    requires bits.Length == BYTES && r.Valid() && bits != r.bitmap && Exact(bits[..], rules)
    modifies bits
    ensures Exact(bits[..], rules + [r])
  {
    ghost var was := bits[..];
    var i := 0;
    while i < bits.Length
      invariant i <= BYTES && r.bitmap[..] == old(r.bitmap[..])
      invariant forall j | 0 <= j < i :: bits[j] == was[j] | r.bitmap[j]
      invariant forall j | i <= j < BYTES :: bits[j] == was[j]
    {
      bits[i] := bits[i] | r.bitmap[i];
      i := i + 1;
    }
    OverlapExact(was, bits[..], rules, r, r.bitmap[..]);
  }

  class Category {
    const name: string
    var fitRules: seq<Rule>
    var bitmap: array<bv8>
    var backup: Option<seq<Rule>>
    var bitmapBackup: seq<bv8>

    ghost predicate Valid()
      reads this, bitmap
    {
      bitmap.Length == BYTES && Exact(bitmap[..], fitRules) && (backup.Some? ==> Exact(bitmapBackup, backup.value))
    }

    constructor (name: string, rules: seq<Rule>)
      requires AllValid(rules) && Named(rules)
      ensures Valid() && fresh(bitmap) && this.name == name && fitRules == FitRules(rules, name) && backup.None?
      ensures GoesBy(fitRules, rules, name)
    {
      this.name := name;
      fitRules := [];
      bitmap := new bv8[BYTES](_ => 0);
      backup, bitmapBackup := None, [];
      new;
      ObtainRules(rules);
    }

    /** Picks the rules for this category, and sets the bitmap to their levels. */
    method ObtainRules(rules: seq<Rule>)
      requires AllValid(rules) && Named(rules) && bitmap.Length == BYTES && forall r | r in rules :: r.bitmap != bitmap
      modifies `fitRules, bitmap
      ensures bitmap.Length == BYTES && fitRules == FitRules(rules, name) && Exact(bitmap[..], fitRules)
      ensures GoesBy(fitRules, rules, name)
    {
      hide GoesBy, AnyOutputs, Rule.Matches;
      FitRulesGoBy(rules, name);
      Fill(bitmap, 0, 0);
      fitRules := [];
      NothingFits(bitmap[..]);
      var wastebin: Rule? := null;
      var i := 0;
      assert rules[..0] == [];
      while i < |rules|
        invariant i <= |rules| && bitmap == old(bitmap) && AllValid(rules)
        invariant fitRules == Fitting(rules[..i], name) && wastebin == Wastebin(rules[..i])
        invariant Exact(bitmap[..], fitRules)
      {
        var r := rules[i];
        assert r in rules;
        assert rules[..i + 1][..i] == rules[..i] && rules[..i + 1][i] == r;
        if r.Matches(name) {
          Overlap(bitmap, r, fitRules);
          fitRules := fitRules + [r];
        }
        if r.IsWastebin() {
          wastebin := r;
        }
        i := i + 1;
      }
      assert rules[..i] == rules;
      if |fitRules| == 0 {
        if wastebin != null {
          Overlap(bitmap, wastebin, fitRules);
          fitRules := fitRules + [wastebin];
        }
      }
    }

    /** Goes over to new rules, keeping the old ones and their levels. */
    method Update(rules: seq<Rule>)
      requires Valid() && AllValid(rules) && Named(rules) && forall r | r in rules :: r.bitmap != bitmap
      modifies this, bitmap
      ensures Valid() && bitmap == old(bitmap) && fitRules == FitRules(rules, name)
      ensures GoesBy(fitRules, rules, name)
      ensures backup == Some(old(fitRules)) && bitmapBackup == old(bitmap[..])
    {
      backup := Some(fitRules);
      bitmapBackup := bitmap[..];
      ObtainRules(rules);
    }

    /** Makes an update final. */
    method Commit()
      requires Valid()
      modifies this
      ensures Valid() && backup.None? && fitRules == old(fitRules) && bitmap == old(bitmap)
    {
      if backup.None? {
        return;
      }
      backup := None;
      bitmapBackup := seq(BYTES, _ => 0);
    }

    /** Takes an update back. */
    method Rollback()
      requires Valid()
      modifies this, bitmap
      ensures Valid() && bitmap == old(bitmap) && backup.None?
      ensures old(backup).None? ==> fitRules == old(fitRules) && bitmap[..] == old(bitmap[..])
      ensures old(backup).Some? ==> fitRules == old(backup).value && bitmap[..] == old(bitmapBackup)
    {
      if backup.None? {
        return;
      }
      fitRules := backup.value;
      var i := 0;
      while i < BYTES
        invariant i <= BYTES && bitmap == old(bitmap) && bitmap.Length == BYTES == |bitmapBackup|
        invariant bitmapBackup == old(bitmapBackup) && backup == old(backup) && fitRules == old(backup).value
        invariant forall j | 0 <= j < i :: bitmap[j] == bitmapBackup[j]
      {
        bitmap[i] := bitmapBackup[i];
        i := i + 1;
      }
      assert bitmap[..] == bitmapBackup;
      backup := None;
      bitmapBackup := seq(BYTES, _ => 0);
    }

    /** An update that is taken back leaves the category as it was. */
    method TryOut(rules: seq<Rule>)
      requires Valid() && AllValid(rules) && Named(rules) && forall r | r in rules :: r.bitmap != bitmap
      modifies this, bitmap
      ensures Valid() && fitRules == old(fitRules) && bitmap[..] == old(bitmap[..])
    {
      Update(rules);
      Rollback();
    }

    /** Nothing would be put out at this level. */
    method NeedlessLevel(lv: int) returns (needless: bool)
      requires Valid() && 0 <= lv < LEVELS
      ensures needless <==> !AnyOutputs(fitRules, lv)
    {
      needless := !BitOf(bitmap[lv / 8], lv % 8);
    }

    /** Puts an event out by every rule of the category that reaches its level. */
    method Output(lv: int) returns (outputs: seq<Rule>)
      ensures outputs == Outputs(fitRules, lv) && PutOut(outputs, fitRules, lv)
    {
      hide PutOut;
      OutputsArePutOut(fitRules, lv);
      outputs := [];
      var i := 0;
      assert fitRules[..0] == [];
      while i < |fitRules|
        invariant i <= |fitRules| && outputs == Outputs(fitRules[..i], lv)
      {
        assert fitRules[..i + 1][..i] == fitRules[..i];
        if fitRules[i].WouldOutput(lv) {
          outputs := outputs + [fitRules[i]];
        }
        i := i + 1;
      }
      assert fitRules[..i] == fitRules;
    }
  }

  lemma NothingFits(bits: seq<bv8>)
    requires |bits| == BYTES && forall i | 0 <= i < BYTES :: bits[i] == 0
    ensures Exact(bits, [])
  {
    forall lv | 0 <= lv < LEVELS ensures !Bit(bits, lv) {
      ConstantBits(lv % 8);
    }
  }

  function Outputs(rules: seq<Rule>, lv: int): seq<Rule> {
    if rules == [] then []
    else
      var last := rules[|rules| - 1];
      Outputs(rules[..|rules| - 1], lv) + if last.WouldOutput(lv) then [last] else []
  }

  /** Skipping an event that the bitmap calls needless skips no output. */
  lemma {:induction false} NeedlessIsSilent(rules: seq<Rule>, lv: int)
    ensures AnyOutputs(rules, lv) <==> Outputs(rules, lv) != []
  {
    if rules != [] {
      var init, last := rules[..|rules| - 1], rules[|rules| - 1];
      NeedlessIsSilent(init, lv);
      assert last in rules;
      assert forall r | r in rules :: r in init || r == last;
      assert forall r | r in init :: r in rules;
    }
  }
}
