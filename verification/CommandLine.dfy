/** What the users of a program write on its command line, and how compat/getopt.c reads it. */
module CommandLine {
  import opened Getopt

  // ---------------------------------------------------------------- declaring options

  // An option letter as a program declares it
  datatype Letter = Letter(c: char, kind: ArgKind)

  function Colons(kind: ArgKind): string {
    match kind
    case NoArgument => ""
    case RequiredArgument => ":"
    case OptionalArgument => "::"
  }

  // The text of optstring: every letter is followed by its colons
  function Optstring(letters: seq<Letter>): string {
    if letters == [] then "" else [letters[0].c] + Colons(letters[0].kind) + Optstring(letters[1..])
  }

  predicate Legal(c: char) { c != ':' && c != ';' && c != '+' && c != '-' }

  ghost predicate Declarable(letters: seq<Letter>) {
    && (forall i :: 0 <= i < |letters| ==> Legal(letters[i].c))
    && forall i, j :: 0 <= i < j < |letters| ==> letters[i].c != letters[j].c
  }

  ghost predicate IsLetter(letters: seq<Letter>, c: char) {
    exists kind :: Letter(c, kind) in letters
  }

  // Does optstring mean these letters and no others?
  ghost predicate Speaks(cfg: Config, letters: seq<Letter>) {
    && (forall letter :: letter in letters ==> Known(cfg, letter.c) && Wants(cfg, letter.c) == letter.kind)
    && forall c :: Known(cfg, c) ==> IsLetter(letters, c)
  }

  lemma FindBehindColons(kind: ArgKind, rest: string, c: char)
    requires c != ':'
    ensures Find(Colons(kind) + rest, c) == Find(rest, c)
  {
    match kind {
      case NoArgument => assert "" + rest == rest;
      case RequiredArgument => assert (":" + rest)[1..] == rest;
      case OptionalArgument =>
        assert ("::" + rest)[1..] == ":" + rest && (":" + rest)[1..] == rest;
    }
  }

  lemma {:induction false} LetterFound(letters: seq<Letter>, k: nat)
    requires Declarable(letters) && k < |letters|
    ensures Find(Optstring(letters), letters[k].c) == Some(Optstring(letters[k..]))
  {
    var rest := Optstring(letters[1..]);
    if k == 0 {
      assert letters[0..] == letters;
    } else {
      assert Optstring(letters)[1..] == Colons(letters[0].kind) + rest;
      FindBehindColons(letters[0].kind, rest, letters[k].c);
      LetterFound(letters[1..], k - 1);
      assert letters[1..][k - 1..] == letters[k..];
    }
  }

  lemma {:induction false} NoOther(letters: seq<Letter>, c: char)
    requires Declarable(letters) && c != ':' && !IsLetter(letters, c)
    ensures Find(Optstring(letters), c) == None
  {
    if letters != [] {
      var rest := Optstring(letters[1..]);
      assert Optstring(letters)[1..] == Colons(letters[0].kind) + rest;
      FindBehindColons(letters[0].kind, rest, c);
      assert letters[0] in letters && letters[0] == Letter(letters[0].c, letters[0].kind);
      NoOther(letters[1..], c);
    }
  }

  // What stands behind the letter is its colons, and no colon after these
  lemma ColonsTell(letters: seq<Letter>)
    requires Declarable(letters) && letters != []
    ensures var entry := Some(Optstring(letters));
            && ColonAt(entry, 1) == (letters[0].kind != NoArgument)
            && (ColonAt(entry, 1) ==> ColonAt(entry, 2) == (letters[0].kind == OptionalArgument))
  {
    var rest := Optstring(letters[1..]);
    assert rest != "" ==> rest[0] == letters[1].c;
    match letters[0].kind {
      case NoArgument => assert Optstring(letters) == [letters[0].c] + rest;
      case RequiredArgument => assert Optstring(letters) == [letters[0].c, ':'] + rest;
      case OptionalArgument => assert Optstring(letters) == [letters[0].c, ':', ':'] + rest;
    }
  }

  // Declaring letters is writing each with its colons, after a ':' if errors are to be told apart
  lemma OptstringSpeaks(cfg: Config, letters: seq<Letter>, quiet: bool)
    requires Declarable(letters) && cfg.optstring == (if quiet then ":" else "") + Optstring(letters)
    ensures Speaks(cfg, letters) && MissingReply(cfg) == if quiet then ':' else '?'
    ensures Plain(cfg.optstring)
    ensures forall posix :: OrderingOf(cfg.optstring, posix) == if posix then RequireOrder else Permute
  {
    var text := Optstring(letters);
    if quiet { assert cfg.optstring[1..] == text; } else { assert cfg.optstring == text; }
    forall letter | letter in letters ensures Known(cfg, letter.c) && Wants(cfg, letter.c) == letter.kind {
      var k :| 0 <= k < |letters| && letters[k] == letter;
      LetterFound(letters, k);
      ColonsTell(letters[k..]);
    }
    forall c | Known(cfg, c) ensures IsLetter(letters, c) {
      if !IsLetter(letters, c) { NoOther(letters, c); }
    }
  }

  // ---------------------------------------------------------------- options as they are written

  // The argument of an option: in the same element, in the next one, or none
  datatype Given = Nothing | Attached(arg: string) | Next(arg: string)

  datatype Word =
    | Operand(text: string)
    | Letters(flags: string, c: char, given: Given)                    // -xyz, with an argument for the last of them
    | Name(double: bool, name: string, given: Given, means: Meaning)   // --name, --name=argument, or -name

  // What a name in the long options stands for: one entry, none, or it cannot be told
  datatype Meaning = Entry(k: nat) | NoEntry | Several

  function Text(w: Word): (text: seq<string>)
    ensures text != []
  {
    match w
    case Operand(text) => [text]
    case Letters(flags, c, Nothing) => ["-" + flags + [c]]
    case Letters(flags, c, Attached(arg)) => ["-" + flags + [c] + arg]
    case Letters(flags, c, Next(arg)) => ["-" + flags + [c], arg]
    case Name(double, name, Nothing, _) => [Dashes(double) + name]
    case Name(double, name, Attached(arg), _) => [Dashes(double) + name + "=" + arg]
    case Name(double, name, Next(arg), _) => [Dashes(double) + name, arg]
  }

  function Dashes(double: bool): string { if double then "--" else "-" }

  function ArgumentOf(given: Given): Option<string> { if given.Nothing? then None else Some(given.arg) }

  // What is said of letters that take no argument, if they are letters at all
  ghost function Flags(letters: seq<Letter>, flags: string): (answers: seq<Answer>) {
    if flags == "" then []
    else [if IsLetter(letters, flags[0]) then Short(flags[0], None) else Unknown(Some(flags[0]))]
         + Flags(letters, flags[1..])
  }

  // Letters that take no argument, or are none
  ghost predicate Bare(letters: seq<Letter>, flags: string) {
    forall i, letter :: 0 <= i < |flags| && letter in letters && letter.c == flags[i] ==> letter.kind == NoArgument
  }

  // May an option of this kind be given so?
  predicate Allowed(kind: ArgKind, given: Given) {
    match given
    case Nothing => kind != RequiredArgument
    case Attached(arg) => kind != NoArgument
    case Next(arg) => kind == RequiredArgument
  }

  // A cluster of letters, of which the last may have an argument. Where long options may have a single
  // dash, a letter stands alone.
  ghost predicate IsCluster(cfg: Config, letters: seq<Letter>, flags: string, c: char, given: Given) {
    && (cfg.longOnly && cfg.longopts.Some? ==> flags == "" && IsLetter(letters, c) && !given.Attached?)
    && (flags + [c])[0] != '-' && Bare(letters, flags) && given != Attached("")
    && (if IsLetter(letters, c) then exists letter :: letter in letters && letter.c == c && Allowed(letter.kind, given)
        else given == Nothing)
  }

  // What is said of it
  ghost function OfCluster(letters: seq<Letter>, flags: string, c: char, given: Given): seq<Answer> {
    Flags(letters, flags) + [if IsLetter(letters, c) then Short(c, ArgumentOf(given)) else Unknown(Some(c))]
  }

  // What getopt makes of the rest of a cluster
  lemma {:induction false} ClusterRead(cfg: Config, letters: seq<Letter>, e: string, flags: string, c: char,
                                       kind: ArgKind, rest: string, after: Option<string>)
    requires Speaks(cfg, letters) && Bare(letters, flags) && |e| >= 2 && !LongEligible(cfg, e)
    requires if IsLetter(letters, c) then Letter(c, kind) in letters else kind == NoArgument
    requires kind == NoArgument ==> rest == ""
    ensures var tail := flags + [c] + rest;
            && Claims(cfg, e, tail) == (kind == RequiredArgument && rest == "")
            && Readings(cfg, e, tail, after) == Flags(letters, flags) + [Reading(cfg, e, [c] + rest, after)]
  {
    var tail := flags + [c] + rest;
    if flags == "" {
      assert tail == [c] + rest;
      LastRead(cfg, letters, e, c, kind, rest, after);
    } else {
      assert tail[0] == flags[0] && tail[1..] == flags[1..] + [c] + rest;
      FlagBare(cfg, letters, flags[0], flags);
      FlagRead(cfg, e, tail, after);
      ClusterRead(cfg, letters, e, flags[1..], c, kind, rest, after);
      Regroup(Flags(letters, flags)[..1], Flags(letters, flags[1..]), [Reading(cfg, e, [c] + rest, after)]);
    }
  }

  lemma Regroup<T>(a: seq<T>, b: seq<T>, c: seq<T>)
    ensures a + b + c == a + (b + c)
  {
  }

  lemma LastRead(cfg: Config, letters: seq<Letter>, e: string, c: char, kind: ArgKind, rest: string,
                 after: Option<string>)
    requires Speaks(cfg, letters) && |e| >= 2 && !LongEligible(cfg, e)
    requires if IsLetter(letters, c) then Letter(c, kind) in letters else kind == NoArgument
    requires kind == NoArgument ==> rest == ""
    ensures Claims(cfg, e, [c] + rest) == (kind == RequiredArgument && rest == "")
    ensures Readings(cfg, e, [c] + rest, after) == [Reading(cfg, e, [c] + rest, after)]
    ensures Known(cfg, c) ==> Letter(c, kind) in letters && Wants(cfg, c) == kind
  {
    var tail := [c] + rest;
    assert tail[0] == c && tail[1..] == rest;
    if IsLetter(letters, c) { assert Known(cfg, Letter(c, kind).c) && Wants(cfg, Letter(c, kind).c) == kind; }
  }

  lemma FlagRead(cfg: Config, e: string, tail: string, after: Option<string>)
    requires |e| >= 2 && !LongEligible(cfg, e) && |tail| > 1
    requires Known(cfg, tail[0]) ==> Wants(cfg, tail[0]) == NoArgument
    ensures Claims(cfg, e, tail) == Claims(cfg, e, tail[1..])
    ensures var answer := if Known(cfg, tail[0]) then Short(tail[0], None) else Unknown(Some(tail[0]));
            Readings(cfg, e, tail, after) == [answer] + Readings(cfg, e, tail[1..], after)
  {
  }

  lemma FlagBare(cfg: Config, letters: seq<Letter>, f: char, flags: string)
    requires Speaks(cfg, letters) && Bare(letters, flags) && flags != "" && f == flags[0]
    ensures Known(cfg, f) == IsLetter(letters, f) && (Known(cfg, f) ==> Wants(cfg, f) == NoArgument)
    ensures Bare(letters, flags[1..])
  {
    if IsLetter(letters, f) {
      var kind :| Letter(f, kind) in letters;
    }
  }

  // The first element is an option, and the next one its argument or not
  lemma OptionParsed(cfg: Config, e: string, given: Given, args: seq<string>, said: seq<Answer>)
    requires IsOption(e) && Claims(cfg, e, Body(cfg, e)) == given.Next?
    requires var after := if given.Next? then Some(given.arg) else if args == [] then None else Some(args[0]);
             Readings(cfg, e, Body(cfg, e), after) == said
    ensures var p, text := Parse(cfg, args), [e] + if given.Next? then [given.arg] else [];
            Parse(cfg, text + args) == Parsed(text + p.options, p.operands, said + p.answers)
  {
    var text := [e] + if given.Next? then [given.arg] else [];
    var all := text + args;
    assert all[0] == e && all[|text|..] == args && all[..|text|] == text;
    if given.Next? { assert all[1] == given.arg; } else if args != [] { assert all[1] == args[0]; }
  }

  function RestOf(given: Given): string { if given.Attached? then given.arg else "" }

  // A cluster is read letter by letter
  lemma LettersRead(cfg: Config, letters: seq<Letter>, flags: string, c: char, given: Given, args: seq<string>)
    requires Speaks(cfg, letters) && IsCluster(cfg, letters, flags, c, given)
    ensures var p, text := Parse(cfg, args), Text(Letters(flags, c, given));
            Parse(cfg, text + args)
            == Parsed(text + p.options, p.operands, OfCluster(letters, flags, c, given) + p.answers)
  {
    var tail := flags + [c] + RestOf(given);
    var e := "-" + tail;
    var after := if given.Next? then Some(given.arg) else if args == [] then None else Some(args[0]);
    assert e[1] == (flags + [c])[0] && e[1..] == tail && IsOption(e) && Body(cfg, e) == tail;
    if IsLetter(letters, c) { assert Known(cfg, c); }
    assert !LongEligible(cfg, e);
    var kind := LastKind(cfg, letters, flags, c, given);
    ClusterRead(cfg, letters, e, flags, c, kind, RestOf(given), after);
    LastRead(cfg, letters, e, c, kind, RestOf(given), after);
    OptionParsed(cfg, e, given, args, OfCluster(letters, flags, c, given));
    LettersText(flags, c, given);
  }

  lemma LettersText(flags: string, c: char, given: Given)
    ensures Text(Letters(flags, c, given))
         == ["-" + (flags + [c] + RestOf(given))] + if given.Next? then [given.arg] else []
  {
    Regroup("-", flags, [c]);
    Regroup("-", flags + [c], RestOf(given));
    assert flags + [c] + "" == flags + [c];
  }

  lemma LastKind(cfg: Config, letters: seq<Letter>, flags: string, c: char, given: Given) returns (kind: ArgKind)
    requires IsCluster(cfg, letters, flags, c, given)
    ensures if IsLetter(letters, c) then Letter(c, kind) in letters else kind == NoArgument && given == Nothing
    ensures IsLetter(letters, c) ==> Allowed(kind, given)
  {
    kind := NoArgument;
    if IsLetter(letters, c) {
      var letter :| letter in letters && letter.c == c && Allowed(letter.kind, given);
      kind := letter.kind;
      assert Letter(c, kind) == letter;
    }
  }

  // ---------------------------------------------------------------- long options

  // Do these two differ in what they mean?
  predicate Apart(p: LongOption, q: LongOption) { p.hasArg != q.hasArg || p.flag != q.flag || p.val != q.val }

  // Entry k is the first with this very name
  ghost predicate Exactly(table: seq<LongOption>, name: string, k: nat) {
    k < |table| && table[k].name == name && forall j :: 0 <= j < k ==> table[j].name != name
  }

  // No entry has it, and k is the first that it abbreviates
  ghost predicate Abbreviates(table: seq<LongOption>, name: string, k: nat) {
    && k < |table| && name <= table[k].name
    && (forall j :: 0 <= j < |table| ==> table[j].name != name)
    && (forall j :: 0 <= j < k ==> !(name <= table[j].name))
  }

  // It abbreviates a later one, too, and that means something else or a single dash will do
  ghost predicate Clashes(single: bool, table: seq<LongOption>, name: string, k: nat)
    requires k < |table|
  {
    exists j :: k < j < |table| && name <= table[j].name && (single || Apart(table[j], table[k]))
  }

  // The name stands for entry k
  ghost predicate Chooses(single: bool, table: seq<LongOption>, name: string, k: nat) {
    Exactly(table, name, k) || (Abbreviates(table, name, k) && !Clashes(single, table, name, k))
  }

  // It stands for none
  ghost predicate Strange(table: seq<LongOption>, name: string) {
    forall j :: 0 <= j < |table| ==> !(name <= table[j].name)
  }

  // It could stand for two
  ghost predicate Vague(single: bool, table: seq<LongOption>, name: string) {
    exists k: nat :: Abbreviates(table, name, k) && Clashes(single, table, name, k)
  }

  // The search finds out which
  lemma NameFound(cfg: Config, name: string)
    requires cfg.longopts.Some?
    ensures forall k: nat :: Chooses(cfg.longOnly, cfg.longopts.value, name, k) ==>
              LookupLong(cfg, name) == Lookup(Some(k), false)
    ensures Strange(cfg.longopts.value, name) ==> LookupLong(cfg, name) == Lookup(None, false)
    ensures Vague(cfg.longOnly, cfg.longopts.value, name) ==> LookupLong(cfg, name).ambiguous
  {
    var table := cfg.longopts.value;
    if exact: nat :| Exactly(table, name, exact) {
      ExactNameWins(cfg, table, name, 0, Lookup(None, false), exact);
      forall k: nat | Chooses(cfg.longOnly, table, name, k) ensures k == exact {}
    } else {
      NoneExact(table, name, |table|);
      AbbreviationFound(cfg, table, name, 0);
      forall k: nat | Abbreviates(table, name, k)
        ensures LookupLong(cfg, name) == Lookup(Some(k), Clashes(cfg.longOnly, table, name, k))
      {
        var found := LookupLong(cfg, name).found;
        assert found.Some? && found.value == k;
        assert Rival(cfg, table, name, k + 1, k) <==> Clashes(cfg.longOnly, table, name, k);
      }
    }
  }

  lemma {:induction false} NoneExact(table: seq<LongOption>, name: string, n: nat)
    requires n <= |table| && forall k: nat :: !Exactly(table, name, k)
    ensures forall j :: 0 <= j < n ==> table[j].name != name
  {
    if n > 0 {
      NoneExact(table, name, n - 1);
      assert !Exactly(table, name, n - 1);
    }
  }

  ghost predicate Means(single: bool, table: seq<LongOption>, name: string, means: Meaning) {
    match means
    case Entry(k) => Chooses(single, table, name, k)
    case NoEntry => Strange(table, name)
    case Several => Vague(single, table, name)
  }

  // Every name means one of these
  lemma NameMeans(cfg: Config, name: string) returns (means: Meaning)
    requires cfg.longopts.Some?
    ensures Means(cfg.longOnly, cfg.longopts.value, name, means)
  {
    var table := cfg.longopts.value;
    if exact: nat :| Exactly(table, name, exact) {
      means := Entry(exact);
    } else {
      NoneExact(table, name, |table|);
      AbbreviationFound(cfg, table, name, 0);
      var found := LookupLong(cfg, name).found;
      if found.None? { return NoEntry; }
      assert Abbreviates(table, name, found.value);
      means := if Clashes(cfg.longOnly, table, name, found.value) then Several else Entry(found.value);
    }
  }

  // May the long option be written so? With a single dash, if that will do, it must not look like a
  // letter, or begin with one if it means no entry.
  ghost predicate IsName(cfg: Config, letters: seq<Letter>, double: bool, name: string, given: Given, means: Meaning) {
    && cfg.longopts.Some? && '=' !in name && (name != "" || given.Attached?)
    && Means(cfg.longOnly, cfg.longopts.value, name, means)
    && (given.Nothing? && means.Entry? ==> cfg.longopts.value[means.k].hasArg != RequiredArgument)
    && (given.Next? ==> means.Entry? && cfg.longopts.value[means.k].hasArg == RequiredArgument)
    && (double || (cfg.longOnly && NoLetter(letters, name + Equals(given), means)))
  }

  ghost predicate NoLetter(letters: seq<Letter>, text: string, means: Meaning)
    requires text != ""
  {
    && text[0] != '-'
    && (|text| == 1 || means.NoEntry? ==> text[0] != ':' && !IsLetter(letters, text[0]))
  }

  function Equals(given: Given): string { if given.Attached? then "=" + given.arg else "" }

  // What is said of it
  function OfName(cfg: Config, given: Given, means: Meaning): Answer
    requires cfg.longopts.Some? && (means.Entry? ==> means.k < |cfg.longopts.value|)
  {
    match means
    case Entry(k) =>
      if given.Attached? && cfg.longopts.value[k].hasArg == NoArgument then Excess(k) else Long(k, ArgumentOf(given))
    case NoEntry => Unknown(None)
    case Several => Ambiguous
  }

  lemma {:induction false} NameEnds(name: string, rest: string)
    requires '=' !in name && (rest == "" || rest[0] == '=')
    ensures NameOf(name + rest) == name
  {
    if name == "" {
      assert "" + rest == rest;
    } else {
      assert (name + rest)[1..] == name[1..] + rest && (name + rest)[0] == name[0];
      NameEnds(name[1..], rest);
    }
  }

  lemma NameRead(cfg: Config, letters: seq<Letter>, double: bool, name: string, given: Given, means: Meaning,
                 args: seq<string>)
    requires Speaks(cfg, letters) && IsName(cfg, letters, double, name, given, means)
    ensures var p, text := Parse(cfg, args), Text(Name(double, name, given, means));
            Parse(cfg, text + args) == Parsed(text + p.options, p.operands, [OfName(cfg, given, means)] + p.answers)
  {
    var tail := name + Equals(given);
    var e := Dashes(double) + tail;
    var after := if given.Next? then Some(given.arg) else if args == [] then None else Some(args[0]);
    NameBody(cfg, letters, double, name, given, means);
    NameAnswered(cfg, e, name, given, means, after);
    NameText(double, name, given, means);
    OptionParsed(cfg, e, given, args, [OfName(cfg, given, means)]);
  }

  lemma NameBody(cfg: Config, letters: seq<Letter>, double: bool, name: string, given: Given, means: Meaning)
    requires Speaks(cfg, letters) && IsName(cfg, letters, double, name, given, means)
    ensures var tail := name + Equals(given);
            var e := Dashes(double) + tail;
            IsOption(e) && Body(cfg, e) == tail && LongEligible(cfg, e)
            && (means.NoEntry? ==> !FallsThrough(cfg, e, tail))
  {
    var tail := name + Equals(given);
    var e := Dashes(double) + tail;
    if double {
      assert e[2..] == tail && e[1] == '-';
    } else {
      assert e[1..] == tail && e[1] == tail[0];
      assert IsLetter(letters, tail[0]) || !Known(cfg, tail[0]);
    }
  }

  lemma NameAnswered(cfg: Config, e: string, name: string, given: Given, means: Meaning, after: Option<string>)
    requires cfg.longopts.Some? && '=' !in name && Means(cfg.longOnly, cfg.longopts.value, name, means)
    requires given.Nothing? && means.Entry? ==> cfg.longopts.value[means.k].hasArg != RequiredArgument
    requires given.Next? ==> means.Entry? && cfg.longopts.value[means.k].hasArg == RequiredArgument
    requires var tail := name + Equals(given);
             |e| >= 2 && tail != "" && LongEligible(cfg, e) && (means.NoEntry? ==> !FallsThrough(cfg, e, tail))
    requires given.Next? ==> after == Some(given.arg)
    ensures Claims(cfg, e, name + Equals(given)) == given.Next?
    ensures Readings(cfg, e, name + Equals(given), after) == [OfName(cfg, given, means)]
  {
    NameEnds(name, Equals(given));
    NameFound(cfg, name);
    if given.Attached? { assert (name + Equals(given))[|name| + 1..] == given.arg; }
    assert Remaining(cfg, e, name + Equals(given)) == "";
  }

  lemma NameText(double: bool, name: string, given: Given, means: Meaning)
    ensures Text(Name(double, name, given, means))
         == [Dashes(double) + (name + Equals(given))] + if given.Next? then [given.arg] else []
  {
    match given {
      case Attached(arg) =>
        Regroup(Dashes(double), name, "=");
        Regroup(Dashes(double) + name, "=", arg);
        Regroup(Dashes(double), name, "=" + arg);
      case _ => assert name + "" == name;
    }
  }

  // ---------------------------------------------------------------- the whole line

  predicate IsOperand(text: string) { text == "" || text == "-" || text[0] != '-' }

  ghost predicate Written(cfg: Config, letters: seq<Letter>, w: Word) {
    match w
    case Operand(text) => IsOperand(text)
    case Letters(flags, c, given) => IsCluster(cfg, letters, flags, c, given)
    case Name(double, name, given, means) => IsName(cfg, letters, double, name, given, means)
  }

  ghost predicate AllWritten(cfg: Config, letters: seq<Letter>, words: seq<Word>) {
    forall i :: 0 <= i < |words| ==> Written(cfg, letters, words[i])
  }

  function Line(words: seq<Word>): seq<string> {
    if words == [] then [] else Text(words[0]) + Line(words[1..])
  }

  // The elements of the options, with their arguments
  function Options(words: seq<Word>): seq<string> {
    if words == [] then []
    else (if words[0].Operand? then [] else Text(words[0])) + Options(words[1..])
  }

  function Operands(words: seq<Word>): seq<string> {
    if words == [] then []
    else (if words[0].Operand? then [words[0].text] else []) + Operands(words[1..])
  }

  // What is said of the options
  ghost function Said(cfg: Config, letters: seq<Letter>, words: seq<Word>): seq<Answer>
    requires AllWritten(cfg, letters, words)
  {
    if words == [] then []
    else Of(cfg, letters, words[0]) + Said(cfg, letters, words[1..])
  }

  ghost function Of(cfg: Config, letters: seq<Letter>, w: Word): seq<Answer>
    requires Written(cfg, letters, w)
  {
    match w
    case Operand(text) => []
    case Letters(flags, c, given) => OfCluster(letters, flags, c, given)
    case Name(_, name, given, means) => [OfName(cfg, given, means)]
  }

  lemma WordRead(cfg: Config, letters: seq<Letter>, w: Word, args: seq<string>)
    requires Speaks(cfg, letters) && Written(cfg, letters, w)
    requires w.Operand? ==> cfg.ordering == Permute
    ensures var p := Parse(cfg, args);
            Parse(cfg, Text(w) + args)
            == Parsed((if w.Operand? then [] else Text(w)) + p.options,
                      (if w.Operand? then [w.text] else []) + p.operands, Of(cfg, letters, w) + p.answers)
  {
    match w {
      case Operand(text) => assert ([text] + args)[1..] == args;
      case Letters(flags, c, given) => LettersRead(cfg, letters, flags, c, given, args);
      case Name(double, name, given, means) => NameRead(cfg, letters, double, name, given, means, args);
    }
  }

  // A command line is read as it was written: options, with their arguments, and operands are told
  // apart wherever they stand, and all is said that there is to say, in order
  lemma {:induction false} LineRead(cfg: Config, letters: seq<Letter>, words: seq<Word>, args: seq<string>)
    requires Speaks(cfg, letters) && AllWritten(cfg, letters, words)
    requires cfg.ordering == Permute || forall i :: 0 <= i < |words| ==> !words[i].Operand?
    ensures var p := Parse(cfg, args);
            Parse(cfg, Line(words) + args)
            == Parsed(Options(words) + p.options, Operands(words) + p.operands, Said(cfg, letters, words) + p.answers)
  {
    if words == [] {
      assert [] + args == args;
      var p := Parse(cfg, args);
      assert [] + p.options == p.options && [] + p.operands == p.operands && [] + p.answers == p.answers;
    } else {
      var w, rest := words[0], words[1..];
      LineRead(cfg, letters, rest, args);
      Regroup(Text(w), Line(rest), args);
      WordRead(cfg, letters, w, Line(rest) + args);
      var p := Parse(cfg, args);
      Regroup(if w.Operand? then [] else Text(w), Options(rest), p.options);
      Regroup(if w.Operand? then [w.text] else [], Operands(rest), p.operands);
      Regroup(Of(cfg, letters, w), Said(cfg, letters, rest), p.answers);
    }
  }

  // "--" ends the options, and so does an operand when none is to stand before an option
  lemma EndRead(cfg: Config, args: seq<string>)
    ensures Parse(cfg, []) == Parsed([], [], []) && Parse(cfg, ["--"] + args) == Parsed(["--"], args, [])
    ensures forall text ::
              IsOperand(text) && cfg.ordering != Permute ==> Parse(cfg, [text] + args) == Parsed([], [text] + args, [])
  {
    assert (["--"] + args)[1..] == args;
    forall text | IsOperand(text) && cfg.ordering != Permute
      ensures Parse(cfg, [text] + args) == Parsed([], [text] + args, [])
    {
      assert ([text] + args)[0] == text;
    }
  }

  lemma OptionAlone(cfg: Config, e: string, said: seq<Answer>)
    requires IsOption(e) && Readings(cfg, e, Body(cfg, e), None) == said
    ensures Parse(cfg, [e]) == Parsed([e], [], said)
  {
    assert [e][1..] == [] && [e][..1] == [e];
    assert Parse(cfg, []) == Parsed([], [], []);
    assert [e] + [] == [e] && said + [] == said;
  }

  // An argument that is not there is missed
  lemma MissingRead(cfg: Config, letters: seq<Letter>, flags: string, c: char)
    requires Speaks(cfg, letters) && Bare(letters, flags) && (flags + [c])[0] != '-'
    requires cfg.longOnly && cfg.longopts.Some? ==> flags == ""
    requires Letter(c, RequiredArgument) in letters
    ensures var e := "-" + (flags + [c]);
            Parse(cfg, [e]) == Parsed([e], [], Flags(letters, flags) + [Missing(MissingReply(cfg))])
  {
    var e := "-" + (flags + [c]);
    assert e[1] == (flags + [c])[0] && e[1..] == flags + [c] + "" && IsOption(e);
    assert Known(cfg, Letter(c, RequiredArgument).c) && !LongEligible(cfg, e);
    ClusterRead(cfg, letters, e, flags, c, RequiredArgument, "", None);
    LastRead(cfg, letters, e, c, RequiredArgument, "", None);
    assert [c] + "" == [c];
    OptionAlone(cfg, e, Flags(letters, flags) + [Missing(MissingReply(cfg))]);
  }

  lemma MissingNameRead(cfg: Config, name: string, k: nat)
    requires cfg.longopts.Some? && name != "" && '=' !in name
    requires Chooses(cfg.longOnly, cfg.longopts.value, name, k) && cfg.longopts.value[k].hasArg == RequiredArgument
    ensures var e := "--" + name;
            Parse(cfg, [e]) == Parsed([e], [], [Missing(MissingReply(cfg))])
  {
    var e := "--" + name;
    assert e[2..] == name && IsOption(e) && Body(cfg, e) == name;
    NameEnds(name, "");
    assert name + "" == name;
    NameFound(cfg, name);
    OptionAlone(cfg, e, [Missing(MissingReply(cfg))]);
  }
}
