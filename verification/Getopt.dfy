/** compat/getopt.c: scanning a command line whose options and operands are mixed. */
module Getopt {

  datatype Option<T> = None | Some(value: T)

  datatype ArgKind = NoArgument | RequiredArgument | OptionalArgument

  // struct option; flag names the variable to be set, if any
  datatype LongOption = LongOption(name: string, hasArg: ArgKind, flag: Option<nat>, val: int)

  datatype Ordering = RequireOrder | Permute | ReturnInOrder

  datatype Config = Config(optstring: string, longopts: Option<seq<LongOption>>, longOnly: bool, ordering: Ordering)

  // What one call tells its caller
  datatype Answer =
    | End                                              // -1
    | Short(c: char, arg: Option<string>)
    | Long(index: nat, arg: Option<string>)
    | Unknown(option: Option<char>)                       // '?' for an option that is not one
    | Ambiguous
    | Excess(index: nat)                               // '?' for an argument not wanted
    | Missing(reply: char)                             // '?' or ':' for an argument not there

  // The choice that _getopt_initialize makes
  function OrderingOf(optstring: string, posixlyCorrect: bool): Ordering {
    if optstring != "" && optstring[0] == '-' then ReturnInOrder
    else if optstring != "" && optstring[0] == '+' then RequireOrder
    else if posixlyCorrect then RequireOrder
    else Permute
  }

  // Does optstring choose no ordering itself?
  predicate Plain(optstring: string) { optstring == "" || (optstring[0] != '-' && optstring[0] != '+') }

  // NONOPTION_P
  predicate IsNonOption(e: string) { e == "" || e[0] != '-' || |e| == 1 }

  predicate IsOption(e: string) { !IsNonOption(e) && e != "--" }

  // ---------------------------------------------------------------- option tables

  // my_index: what optstring says from the first occurrence of c on
  function Find(optstring: string, c: char): Option<string> {
    if optstring == "" then None else if optstring[0] == c then Some(optstring) else Find(optstring[1..], c)
  }

  predicate Known(cfg: Config, c: char) { c != ':' && Find(cfg.optstring, c).Some? }

  predicate ColonAt(entry: Option<string>, i: nat) {
    entry.Some? && i < |entry.value| && entry.value[i] == ':'
  }

  function Wants(cfg: Config, c: char): ArgKind {
    var entry := Find(cfg.optstring, c);
    if ColonAt(entry, 1) then (if ColonAt(entry, 2) then OptionalArgument else RequiredArgument) else NoArgument
  }

  // The part of a long option before any '='
  function NameOf(tail: string): (name: string)
    ensures name <= tail && '=' !in name && (|name| < |tail| ==> tail[|name|] == '=')
  {
    if tail == "" || tail[0] == '=' then "" else [tail[0]] + NameOf(tail[1..])
  }

  datatype Lookup = Lookup(found: Option<nat>, ambiguous: bool)

  predicate Differ(cfg: Config, p: LongOption, q: LongOption) {
    cfg.longOnly || p.hasArg != q.hasArg || p.flag != q.flag || p.val != q.val
  }

  // The search of the long options from entry i on
  function Search(cfg: Config, table: seq<LongOption>, name: string, i: nat, sofar: Lookup): (r: Lookup)
    requires i <= |table| && (sofar.found.Some? ==> sofar.found.value < |table|)
    ensures r.found.Some? ==> r.found.value < |table|
    decreases |table| - i
  {
    if i == |table| then sofar
    else if !(name <= table[i].name) then Search(cfg, table, name, i + 1, sofar)
    else if |name| == |table[i].name| then Lookup(Some(i), false)
    else if sofar.found.None? then Search(cfg, table, name, i + 1, Lookup(Some(i), sofar.ambiguous))
    else if Differ(cfg, table[i], table[sofar.found.value]) then
      Search(cfg, table, name, i + 1, sofar.(ambiguous := true))
    else Search(cfg, table, name, i + 1, sofar)
  }

  function LookupLong(cfg: Config, name: string): (r: Lookup)
    requires cfg.longopts.Some?
    ensures r.found.Some? ==> r.found.value < |cfg.longopts.value|
  {
    Search(cfg, cfg.longopts.value, name, 0, Lookup(None, false))
  }

  // An exact name wins over any abbreviation, wherever in the table they stand
  lemma {:induction false} ExactNameWins(cfg: Config, table: seq<LongOption>, name: string, i: nat, sofar: Lookup,
                                         k: nat)
    requires i <= k < |table| && table[k].name == name && forall j :: i <= j < k ==> table[j].name != name
    requires sofar.found.Some? ==> sofar.found.value < |table|
    ensures Search(cfg, table, name, i, sofar) == Lookup(Some(k), false)
    decreases k - i
  {
    if i < k {
      var next := if !(name <= table[i].name) then sofar
                  else if sofar.found.None? then Lookup(Some(i), sofar.ambiguous)
                  else if Differ(cfg, table[i], table[sofar.found.value]) then sofar.(ambiguous := true) else sofar;
      ExactNameWins(cfg, table, name, i + 1, next, k);
    }
  }

  // Does a later option that the name abbreviates make option k ambiguous?
  ghost predicate Rival(cfg: Config, table: seq<LongOption>, name: string, i: nat, k: nat)
    requires k < |table|
  {
    exists j :: i <= j < |table| && name <= table[j].name && Differ(cfg, table[j], table[k])
  }

  lemma {:induction false} RestOfSearch(cfg: Config, table: seq<LongOption>, name: string, i: nat, k: nat,
                                        ambiguous: bool)
    requires k < i <= |table| && forall j :: i <= j < |table| ==> table[j].name != name
    ensures Search(cfg, table, name, i, Lookup(Some(k), ambiguous))
         == Lookup(Some(k), ambiguous || Rival(cfg, table, name, i, k))
    decreases |table| - i
  {
    if i < |table| {
      var rival := name <= table[i].name && Differ(cfg, table[i], table[k]);
      RestOfSearch(cfg, table, name, i + 1, k, ambiguous || rival);
      assert Rival(cfg, table, name, i, k) <==> rival || Rival(cfg, table, name, i + 1, k);
    }
  }

  // Without an exact name, the first option that the name abbreviates is found, and it is
  // ambiguous exactly when a later one that it abbreviates differs
  lemma {:induction false} AbbreviationFound(cfg: Config, table: seq<LongOption>, name: string, i: nat)
    requires i <= |table| && forall j :: i <= j < |table| ==> table[j].name != name
    ensures var r := Search(cfg, table, name, i, Lookup(None, false));
            if r.found.Some?
            then i <= r.found.value && name <= table[r.found.value].name
                 && (forall j :: i <= j < r.found.value ==> !(name <= table[j].name))
                 && r.ambiguous == Rival(cfg, table, name, r.found.value + 1, r.found.value)
            else !r.ambiguous && forall j :: i <= j < |table| ==> !(name <= table[j].name)
    decreases |table| - i
  {
    if i < |table| {
      if name <= table[i].name {
        RestOfSearch(cfg, table, name, i + 1, i, false);
      } else {
        AbbreviationFound(cfg, table, name, i + 1);
      }
    }
  }

  // ---------------------------------------------------------------- what a scan should do

  // May element e be a long option?
  predicate LongEligible(cfg: Config, e: string)
    requires |e| >= 2
  {
    cfg.longopts.Some? && (e[1] == '-' || (cfg.longOnly && (|e| > 2 || Find(cfg.optstring, e[1]).None?)))
  }

  // Is the tail of e, though it is no long option, still to be read as short ones?
  predicate FallsThrough(cfg: Config, e: string, tail: string)
    requires |e| >= 2 && tail != ""
  {
    cfg.longOnly && e[1] != '-' && Find(cfg.optstring, tail[0]).Some?
  }

  // Does option element e, of which tail is still to be read, claim the element after it?
  predicate Claims(cfg: Config, e: string, tail: string)
    requires |e| >= 2
    decreases |tail|
  {
    if tail == "" then false
    else if LongEligible(cfg, e) &&
            (var l := LookupLong(cfg, NameOf(tail)); l.ambiguous || l.found.Some? || !FallsThrough(cfg, e, tail)) then
      var l := LookupLong(cfg, NameOf(tail));
      !l.ambiguous && l.found.Some? && NameOf(tail) == tail
      && cfg.longopts.value[l.found.value].hasArg == RequiredArgument
    else if !Known(cfg, tail[0]) || Wants(cfg, tail[0]) == NoArgument then Claims(cfg, e, tail[1..])
    else Wants(cfg, tail[0]) == RequiredArgument && |tail| == 1
  }

  // What is read of option element e: all of it but its initial punctuation
  function Body(cfg: Config, e: string): (tail: string)
    requires IsOption(e)
    ensures tail != "" && |tail| < |e|
  {
    if cfg.longopts.Some? && e[1] == '-' then e[2..] else e[1..]
  }

  // What the next call says about option element e, of which tail is still to be read, when
  // `after` is the element behind it
  function Reading(cfg: Config, e: string, tail: string, after: Option<string>): Answer
    requires |e| >= 2 && tail != ""
  {
    var name := NameOf(tail);
    var value := if name == tail then None else Some(tail[|name| + 1..]);
    if LongEligible(cfg, e) && LookupLong(cfg, name).ambiguous then Ambiguous
    else if LongEligible(cfg, e) && LookupLong(cfg, name).found.Some? then
      var k := LookupLong(cfg, name).found.value;
      var kind := cfg.longopts.value[k].hasArg;
      if value.Some? then (if kind == NoArgument then Excess(k) else Long(k, value))
      else if kind == RequiredArgument then (if after.Some? then Long(k, after) else Missing(MissingReply(cfg)))
      else Long(k, None)
    else if LongEligible(cfg, e) && !FallsThrough(cfg, e, tail) then Unknown(None)
    else if !Known(cfg, tail[0]) then Unknown(Some(tail[0]))
    else
      match Wants(cfg, tail[0])
      case NoArgument => Short(tail[0], None)
      case OptionalArgument => Short(tail[0], if |tail| > 1 then Some(tail[1..]) else None)
      case RequiredArgument =>
        if |tail| > 1 then Short(tail[0], Some(tail[1..]))
        else if after.Some? then Short(tail[0], after) else Missing(MissingReply(cfg))
  }

  function MissingReply(cfg: Config): char {
    if cfg.optstring != "" && cfg.optstring[0] == ':' then ':' else '?'
  }

  // What is then left to be read of e
  function Remaining(cfg: Config, e: string, tail: string): (rest: string)
    requires |e| >= 2 && tail != ""
    ensures |rest| < |tail|
  {
    if LongEligible(cfg, e) && (LookupLong(cfg, NameOf(tail)).ambiguous || LookupLong(cfg, NameOf(tail)).found.Some?
                                || !FallsThrough(cfg, e, tail)) then ""
    else if !Known(cfg, tail[0]) || Wants(cfg, tail[0]) == NoArgument then tail[1..]
    else ""
  }

  lemma RemainingClaims(cfg: Config, e: string, tail: string)
    requires |e| >= 2 && tail != "" && Remaining(cfg, e, tail) != ""
    ensures Claims(cfg, e, Remaining(cfg, e, tail)) == Claims(cfg, e, tail)
  {
  }

  // How many elements are then done with, there being one behind e or not
  function Taken(cfg: Config, e: string, tail: string, more: bool): nat
    requires |e| >= 2 && tail != ""
  {
    if Remaining(cfg, e, tail) != "" then 0 else if Claims(cfg, e, tail) && more then 2 else 1
  }

  // All that is said about e, from the tail on
  function Readings(cfg: Config, e: string, tail: string, after: Option<string>): seq<Answer>
    requires |e| >= 2 && tail != ""
    decreases |tail|
  {
    var rest := Remaining(cfg, e, tail);
    [Reading(cfg, e, tail, after)] + if rest == "" then [] else Readings(cfg, e, rest, after)
  }

  datatype Parsed = Parsed(options: seq<string>, operands: seq<string>, answers: seq<Answer>)

  // The guidelines' reading of a command line: options with the elements they claim,
  // operands, up to a "--" after which everything is an operand, and what the options say.
  // Unless operands may stand anywhere the first of them ends the options as well.
  function Parse(cfg: Config, args: seq<string>): Parsed
    decreases |args|, 1
  {
    if args == [] then Parsed([], [], [])
    else if IsNonOption(args[0]) && cfg.ordering != Permute then Parsed([], args, [])
    else if IsNonOption(args[0]) then
      var p := Parse(cfg, args[1..]);
      Parsed(p.options, [args[0]] + p.operands, p.answers)
    else if args[0] == "--" then Parsed([args[0]], args[1..], [])
    else ParseOption(cfg, args, Body(cfg, args[0]))
  }

  // The same, when args[0] is an option of which tail is still to be read
  function ParseOption(cfg: Config, args: seq<string>, tail: string): Parsed
    requires args != [] && |args[0]| >= 2 && tail != ""
    decreases |args|, 0
  {
    var n := if Claims(cfg, args[0], tail) && |args| > 1 then 2 else 1;
    var p := Parse(cfg, args[n..]);
    Parsed(args[..n] + p.options, p.operands, Readings(cfg, args[0], tail, Second(args)) + p.answers)
  }

  // Are there no more options from here on?
  predicate Stops(cfg: Config, args: seq<string>) {
    args != [] && (args[0] == "--" || (IsNonOption(args[0]) && cfg.ordering != Permute))
  }

  function Second(args: seq<string>): Option<string> { if |args| > 1 then Some(args[1]) else None }

  // Nothing is lost and nothing is invented
  lemma {:induction false} ParseIsPermutation(cfg: Config, args: seq<string>)
    ensures multiset(Parse(cfg, args).options) + multiset(Parse(cfg, args).operands) == multiset(args)
  {
    if args != [] && !Stops(cfg, args) {
      var n := Used(cfg, args);
      ParseIsPermutation(cfg, args[n..]);
      HeadElements(cfg, args);
      assert args == args[..n] + args[n..];
    } else if args != [] {
      assert args == [args[0]] + args[1..];
    }
  }

  lemma HeadElements(cfg: Config, args: seq<string>)
    requires args != [] && !Stops(cfg, args)
    ensures var n := Used(cfg, args);
            var p := Parse(cfg, args[n..]);
            multiset(Parse(cfg, args).options) + multiset(Parse(cfg, args).operands)
            == multiset(args[..n]) + (multiset(p.options) + multiset(p.operands))
  {
    ParseHead(cfg, args);
  }

  // How many elements the first one takes up, with what it claims
  function Used(cfg: Config, args: seq<string>): (n: nat)
    requires args != [] && !Stops(cfg, args)
    ensures 1 <= n <= |args|
  {
    if IsOption(args[0]) && Claims(cfg, args[0], Body(cfg, args[0])) && |args| > 1 then 2 else 1
  }

  lemma ParseHead(cfg: Config, args: seq<string>)
    requires args != [] && !Stops(cfg, args)
    ensures var n := Used(cfg, args);
            var p := Parse(cfg, args[n..]);
            var q := Parse(cfg, args);
            if IsNonOption(args[0]) then q.options == p.options && q.operands == args[..n] + p.operands
            else q.options == args[..n] + p.options && q.operands == p.operands
  {
    assert args[..1] == [args[0]];
  }

  // s is obtained from t by leaving out elements
  ghost predicate Subsequence<T>(s: seq<T>, t: seq<T>) {
    if s == [] then true
    else if t == [] then false
    else (s[0] == t[0] && Subsequence(s[1..], t[1..])) || Subsequence(s, t[1..])
  }

  lemma {:induction false} SubsequenceSkip<T>(s: seq<T>, t: seq<T>, u: seq<T>)
    requires Subsequence(s, t)
    ensures Subsequence(s, u + t)
  {
    if u != [] {
      SubsequenceSkip(s, t, u[1..]);
      assert (u + t)[1..] == u[1..] + t;
    } else {
      assert u + t == t;
    }
  }

  lemma {:induction false} SubsequenceKeep<T>(s: seq<T>, t: seq<T>, u: seq<T>)
    requires Subsequence(s, t)
    ensures Subsequence(u + s, u + t)
  {
    if u != [] {
      SubsequenceKeep(s, t, u[1..]);
      assert (u + s)[1..] == u[1..] + s && (u + t)[1..] == u[1..] + t;
    } else {
      assert u + s == s && u + t == t;
    }
  }

  lemma {:induction false} SubsequenceSelf<T>(s: seq<T>)
    ensures Subsequence(s, s)
  {
    if s != [] { SubsequenceSelf(s[1..]); }
  }

  // Both halves keep the order of the command line
  lemma {:induction false} ParseKeepsOrder(cfg: Config, args: seq<string>)
    ensures Subsequence(Parse(cfg, args).options, args)
    ensures Subsequence(Parse(cfg, args).operands, args)
  {
    if args != [] {
      assert args == [args[0]] + args[1..];
      if args[0] == "--" {
        SubsequenceSelf(args[1..]);
        return;
      }
      if Stops(cfg, args) {
        SubsequenceSelf(args);
        return;
      }
      var n := Used(cfg, args);
      ParseKeepsOrder(cfg, args[n..]);
      ParseHead(cfg, args);
      var p := Parse(cfg, args[n..]);
      assert args == args[..n] + args[n..];
      if IsNonOption(args[0]) {
        SubsequenceKeep(p.operands, args[n..], args[..n]);
        SubsequenceSkip(p.options, args[n..], args[..n]);
      } else {
        SubsequenceKeep(p.options, args[n..], args[..n]);
        SubsequenceSkip(p.operands, args[n..], args[..n]);
      }
    }
  }

  // When an element has been read to its end, the one behind it has been used up exactly when
  // it is claimed: then it is missed if it is not there, and is the argument if it is
  lemma ReadingUsesClaim(cfg: Config, e: string, tail: string, after: string)
    requires |e| >= 2 && tail != "" && Remaining(cfg, e, tail) == ""
    ensures Claims(cfg, e, tail) <==>
              var r := Reading(cfg, e, tail, None); r.Missing?
    ensures var r := Reading(cfg, e, tail, Some(after));
            if Claims(cfg, e, tail) then (r.Short? || r.Long?) && r.arg == Some(after)
            else r == Reading(cfg, e, tail, None)
  {
    assert !Claims(cfg, e, "");
  }

  // ---------------------------------------------------------------- the scanner

  // The block [bottom, middle) after the block [middle, top), between what is around them
  function Rotated(s: seq<string>, bottom: nat, middle: nat, top: nat): seq<string>
    requires bottom <= middle <= top <= |s|
  {
    s[..bottom] + s[middle..top] + s[bottom..middle] + s[top..]
  }

  // Where element k comes from when the blocks [p, p + len) and [q, q + len) change places
  function Source(p: nat, q: nat, len: nat, k: int): int {
    if p <= k < p + len then q + (k - p) else if q <= k < q + len then p + (k - q) else k
  }

  ghost predicate BlocksSwapped(s: seq<string>, t: seq<string>, p: nat, q: nat, len: nat)
    requires p + len <= q && q + len <= |s|
  {
    |t| == |s| && forall k {:trigger t[k]} :: 0 <= k < |s| ==> t[k] == s[Source(p, q, len, k)]
  }

  lemma SwapOneMore(s: seq<string>, t: seq<string>, p: nat, q: nat, i: nat)
    requires p + i < q && q + i < |s| && BlocksSwapped(s, t, p, q, i)
    ensures BlocksSwapped(s, t[p + i := t[q + i]][q + i := t[p + i]], p, q, i + 1)
  {
    assert t[p + i] == s[p + i] && t[q + i] == s[q + i];
  }

  lemma RotatedAt(s: seq<string>, bottom: nat, middle: nat, top: nat, k: nat)
    requires bottom <= middle <= top <= |s| && k < |s|
    ensures |Rotated(s, bottom, middle, top)| == |s|
    ensures Rotated(s, bottom, middle, top)[k]
         == s[if bottom <= k < bottom + (top - middle) then k + (middle - bottom)
              else if bottom <= k < top then k - (top - middle) else k]
  {
  }

  lemma RotatedParts(s: seq<string>, bottom: nat, middle: nat, top: nat)
    requires bottom <= middle <= top <= |s|
    ensures var t, mid := Rotated(s, bottom, middle, top), bottom + (top - middle);
            |t| == |s| && t[..bottom] == s[..bottom] && t[bottom..mid] == s[middle..top]
            && t[mid..top] == s[bottom..middle] && t[top..] == s[top..]
  {
  }

  // Swapping a short first block with the end of the second, or a short second block with
  // the start of the first, leaves a smaller rotation with the same outcome
  lemma RotateShortBottom(s: seq<string>, t: seq<string>, bottom: nat, middle: nat, top: nat)
    requires bottom <= middle <= top <= |s| && middle - bottom <= top - middle
    requires BlocksSwapped(s, t, bottom, top - (middle - bottom), middle - bottom)
    ensures Rotated(s, bottom, middle, top) == Rotated(t, bottom, middle, top - (middle - bottom))
  {
    forall k | 0 <= k < |s|
      ensures Rotated(s, bottom, middle, top)[k] == Rotated(t, bottom, middle, top - (middle - bottom))[k]
    {
      RotatedAt(s, bottom, middle, top, k);
      RotatedAt(t, bottom, middle, top - (middle - bottom), k);
    }
  }

  lemma RotateShortTop(s: seq<string>, t: seq<string>, bottom: nat, middle: nat, top: nat)
    requires bottom <= middle <= top <= |s| && top - middle <= middle - bottom
    requires BlocksSwapped(s, t, bottom, middle, top - middle)
    ensures Rotated(s, bottom, middle, top) == Rotated(t, bottom + (top - middle), middle, top)
  {
    forall k | 0 <= k < |s|
      ensures Rotated(s, bottom, middle, top)[k] == Rotated(t, bottom + (top - middle), middle, top)[k]
    {
      RotatedAt(s, bottom, middle, top, k);
      RotatedAt(t, bottom + (top - middle), middle, top, k);
    }
  }

  // What has been parsed so far put together with what is still to come: options in
  // [1, first) and [last, optind), skipped operands in [first, last), the rest from optind
  function Reassembled(cfg: Config, s: seq<string>, first: nat, last: nat, optind: nat, tail: string,
                       heard: seq<Answer>): Parsed
    requires 1 <= first <= last <= optind <= |s| && (tail != "" ==> optind < |s| && IsOption(s[optind]))
  {
    var p := if tail == "" then Parse(cfg, s[optind..]) else ParseOption(cfg, s[optind..], tail);
    Parsed(s[1..first] + s[last..optind] + p.options, s[first..last] + p.operands, heard + p.answers)
  }

  lemma {:induction false} ReassembledExchange(cfg: Config, s: seq<string>, t: seq<string>, first: nat, last: nat,
                            optind: nat, heard: seq<Answer>)
    requires 1 <= first <= last <= optind <= |s| && t == Rotated(s, first, last, optind)
    ensures |t| == |s| && t[0] == s[0] && t[optind..] == s[optind..]
    ensures Reassembled(cfg, t, first + (optind - last), optind, optind, "", heard)
         == Reassembled(cfg, s, first, last, optind, "", heard)
  {
    var mid := first + (optind - last);
    assert t[optind..] == s[optind..];
    assert t[1..mid] == s[1..first] + s[last..optind];
    assert t[mid..optind] == s[first..last];
    assert t[optind..optind] == [];
  }

  lemma ReassembledNoOperands(cfg: Config, s: seq<string>, first: nat, optind: nat, heard: seq<Answer>)
    requires 1 <= first <= optind <= |s|
    ensures Reassembled(cfg, s, optind, optind, optind, "", heard)
         == Reassembled(cfg, s, first, first, optind, "", heard)
  {
    assert s[1..optind] == s[1..first] + s[first..optind];
  }

  lemma ReassembledSkip(cfg: Config, s: seq<string>, first: nat, optind: nat, heard: seq<Answer>)
    requires 1 <= first <= optind < |s| && IsNonOption(s[optind]) && cfg.ordering == Permute
    ensures Reassembled(cfg, s, first, optind + 1, optind + 1, "", heard)
         == Reassembled(cfg, s, first, optind, optind, "", heard)
  {
    var u := s[optind..];
    assert u[1..] == s[optind + 1..];
    assert s[first..optind + 1] == s[first..optind] + [s[optind]];
  }

  lemma ReassembledStart(cfg: Config, s: seq<string>, first: nat, last: nat, optind: nat, heard: seq<Answer>)
    requires 1 <= first <= last <= optind < |s| && IsOption(s[optind])
    ensures Reassembled(cfg, s, first, last, optind, Body(cfg, s[optind]), heard)
         == Reassembled(cfg, s, first, last, optind, "", heard)
  {
  }

  // Reading on in an option element, or leaving it with what it claims
  lemma ReassembledRead(cfg: Config, s: seq<string>, first: nat, last: nat, was: nat, tail: string, optind: nat,
                        tail': string, heard: seq<Answer>)
    requires 1 <= first <= last <= was < |s| && IsOption(s[was]) && tail != ""
    requires tail' == Remaining(cfg, s[was], tail) && optind == was + Taken(cfg, s[was], tail, was + 1 < |s|)
    ensures var r := Reading(cfg, s[was], tail, Second(s[was..]));
            Reassembled(cfg, s, first, last, optind, tail', heard + [r])
            == Reassembled(cfg, s, first, last, was, tail, heard)
  {
    assert s[was..][0] == s[was];
    if tail' != "" {
      ParseOptionOn(cfg, s[was..], tail);
    } else {
      ParseOptionLast(cfg, s[was..], tail);
      ReassembledLeave(cfg, s, first, last, was, optind, heard, Reading(cfg, s[was], tail, Second(s[was..])));
    }
  }

  lemma {:induction false} ReassembledLeave(cfg: Config, s: seq<string>, first: nat, last: nat, was: nat, optind: nat,
                         heard: seq<Answer>, r: Answer)
    requires 1 <= first <= last <= was < optind <= |s|
    ensures var q := Parse(cfg, s[was..][optind - was..]);
            Reassembled(cfg, s, first, last, optind, "", heard + [r])
            == Parsed(s[1..first] + s[last..was] + (s[was..][..optind - was] + q.options), s[first..last] + q.operands,
                      heard + ([r] + q.answers))
  {
    assert s[was..][optind - was..] == s[optind..];
    assert s[last..optind] == s[last..was] + s[was..][..optind - was];
  }

  lemma {:induction false} ParseOptionOn(cfg: Config, args: seq<string>, tail: string)
    requires args != [] && |args[0]| >= 2 && tail != "" && Remaining(cfg, args[0], tail) != ""
    ensures var p := ParseOption(cfg, args, tail);
            var q := ParseOption(cfg, args, Remaining(cfg, args[0], tail));
            p == q.(answers := [Reading(cfg, args[0], tail, Second(args))] + q.answers)
  {
    RemainingClaims(cfg, args[0], tail);
  }

  lemma ParseOptionLast(cfg: Config, args: seq<string>, tail: string)
    requires args != [] && |args[0]| >= 2 && tail != "" && Remaining(cfg, args[0], tail) == ""
    ensures var n := Taken(cfg, args[0], tail, |args| > 1);
            var p := ParseOption(cfg, args, tail);
            var q := Parse(cfg, args[n..]);
            p == Parsed(args[..n] + q.options, q.operands, [Reading(cfg, args[0], tail, Second(args))] + q.answers)
  {
  }

  // "--" goes with the options, and all that follows with the operands
  lemma ReassembledEnd(cfg: Config, s: seq<string>, t: seq<string>, first: nat, optind: nat, heard: seq<Answer>)
    requires 1 <= first <= optind < |s| && s[optind] == "--" && t == Rotated(s, first, optind, optind + 1)
    ensures Reassembled(cfg, s, first, optind, optind, "", heard) == Parsed(t[1..first + 1], t[first + 1..], heard)
  {
    RotatedParts(s, first, optind, optind + 1);
    assert t[1..first + 1] == t[..first][1..] + t[first..first + 1];
    assert s[1..first] == s[..first][1..] && s[optind..optind + 1] == [s[optind]];
    assert t[first + 1..] == t[first + 1..optind + 1] + t[optind + 1..];
    assert s[optind..][1..] == s[optind + 1..];
  }

  lemma AllScanned(cfg: Config, s: seq<string>, first: nat, heard: seq<Answer>)
    requires 1 <= first <= |s|
    ensures Reassembled(cfg, s, first, |s|, |s|, "", heard) == Parsed(s[1..first], s[first..], heard)
  {
  }

  lemma OperandEnds(cfg: Config, s: seq<string>, optind: nat, heard: seq<Answer>)
    requires 1 <= optind < |s| && IsNonOption(s[optind]) && cfg.ordering != Permute
    ensures Reassembled(cfg, s, optind, optind, optind, "", heard) == Parsed(s[1..optind], s[optind..], heard)
  {
  }

  lemma RotatedNothing(s: seq<string>, bottom: nat, middle: nat, top: nat)
    requires bottom <= middle <= top <= |s| && (bottom == middle || middle == top)
    ensures Rotated(s, bottom, middle, top) == s
  {
  }

  class Scanner {
    const cfg: Config
    const argv: array<string>
    var optind: nat
    var nextchar: string             // empty when the next element is to be started
    var firstNonopt: nat
    var lastNonopt: nat

    ghost const program: string
    ghost const goal: Parsed         // what the command line should be sorted into
    ghost var heard: seq<Answer>     // what the calls so far have said
    ghost var ended: bool            // has a call returned -1?

    // The inner loops of exchange
    method SwapBlocks(p: nat, q: nat, len: nat)
      requires p + len <= q && q + len <= argv.Length
      modifies argv
      ensures BlocksSwapped(old(argv[..]), argv[..], p, q, len)
    {
      ghost var was := argv[..];
      var i := 0;
      while i < len
        invariant i <= len && BlocksSwapped(was, argv[..], p, q, i)
      {
        ghost var now := argv[..];
        SwapOneMore(was, now, p, q, i);
        argv[p + i], argv[q + i] := argv[q + i], argv[p + i];
        assert argv[..] == now[p + i := now[q + i]][q + i := now[p + i]];
        i := i + 1;
      }
    }

    // One round of exchange, the bottom block being the shorter
    method PlaceBottom(bottom: nat, middle: nat, top: nat)
      requires bottom < middle < top <= argv.Length && top - middle > middle - bottom
      modifies argv
      ensures Rotated(argv[..], bottom, middle, top - (middle - bottom)) == Rotated(old(argv[..]), bottom, middle, top)
    {
      var len := middle - bottom;
      SwapBlocks(bottom, top - len, len);
      RotateShortBottom(old(argv[..]), argv[..], bottom, middle, top);
    }

    // One round of exchange, the top block being the shorter
    method PlaceTop(bottom: nat, middle: nat, top: nat)
      requires bottom < middle < top <= argv.Length && top - middle <= middle - bottom
      modifies argv
      ensures Rotated(argv[..], bottom + (top - middle), middle, top) == Rotated(old(argv[..]), bottom, middle, top)
    {
      SwapBlocks(bottom, middle, top - middle);
      RotateShortTop(old(argv[..]), argv[..], bottom, middle, top);
    }

    // One round of exchange
    method PlaceShorter(bottom: nat, middle: nat, top: nat) returns (bottom': nat, top': nat)
      requires bottom < middle < top <= argv.Length
      modifies argv
      ensures bottom <= bottom' <= middle <= top' <= top && top' - bottom' < top - bottom
      ensures Rotated(argv[..], bottom', middle, top') == Rotated(old(argv[..]), bottom, middle, top)
    {
      bottom', top' := bottom, top;
      if top - middle > middle - bottom {
        PlaceBottom(bottom, middle, top);
        top' := top - (middle - bottom);
      } else {
        PlaceTop(bottom, middle, top);
        bottom' := bottom + (top - middle);
      }
    }

    // The loop of exchange
    method RotateBlocks(first: nat, middle: nat, last: nat)
      requires first <= middle <= last <= argv.Length
      modifies argv
      ensures argv[..] == Rotated(old(argv[..]), first, middle, last)
    {
      ghost var goal := Rotated(argv[..], first, middle, last);
      var bottom: nat, top: nat := first, last;
      while top > middle && middle > bottom
        invariant bottom <= middle <= top <= argv.Length
        invariant Rotated(argv[..], bottom, middle, top) == goal
        decreases top - bottom
      {
        bottom, top := PlaceShorter(bottom, middle, top);
      }
      RotatedNothing(argv[..], bottom, middle, top);
    }

    // exchange
    method Exchange()
      requires firstNonopt <= lastNonopt <= optind <= argv.Length
      modifies argv, this`firstNonopt, this`lastNonopt
      ensures argv[..] == Rotated(old(argv[..]), old(firstNonopt), old(lastNonopt), optind)
      ensures firstNonopt == old(firstNonopt) + (optind - old(lastNonopt)) && lastNonopt == optind
    {
      RotateBlocks(firstNonopt, lastNonopt, optind);
      firstNonopt := firstNonopt + (optind - lastNonopt);
      lastNonopt := optind;
    }

    // The search of the long options in _getopt_internal
    method FindLong(name: string) returns (l: Lookup)
      requires cfg.longopts.Some?
      ensures l == LookupLong(cfg, name)
    {
      var table := cfg.longopts.value;
      var found: Option<nat>, ambiguous, i := None, false, 0;
      while i < |table|
        invariant i <= |table| && (found.Some? ==> found.value < |table|)
        invariant Search(cfg, table, name, i, Lookup(found, ambiguous)) == LookupLong(cfg, name)
      {
        if name <= table[i].name {
          if |name| == |table[i].name| {
            return Lookup(Some(i), false);
          } else if found.None? {
            found := Some(i);
          } else if Differ(cfg, table[i], table[found.value]) {
            ambiguous := true;
          }
        }
        i := i + 1;
      }
      l := Lookup(found, ambiguous);
    }

    // The element behind the one being read
    ghost function After(): Option<string>
      reads this`optind, argv
    {
      if optind + 1 < argv.Length then Some(argv[optind + 1]) else None
    }

    // How a call moves on in the element being read
    ghost predicate Moved(e: string, tail: string, was: nat)
      requires |e| >= 2 && tail != ""
      reads this`optind, this`nextchar
    {
      nextchar == Remaining(cfg, e, tail) && optind == was + Taken(cfg, e, tail, was + 1 < argv.Length)
    }

    // The long option at nextchar, if it is one
    method DecodeLong() returns (handled: bool, r: Answer)
      requires optind < argv.Length && |argv[optind]| >= 2 && nextchar != "" && LongEligible(cfg, argv[optind])
      modifies this`optind, this`nextchar
      ensures !handled ==>
                optind == old(optind) && nextchar == old(nextchar) && FallsThrough(cfg, argv[optind], nextchar)
                           && var l := LookupLong(cfg, NameOf(nextchar)); !l.ambiguous && l.found.None?
      ensures handled ==> r == Reading(cfg, argv[old(optind)], old(nextchar), old(After()))
      ensures handled ==> Moved(argv[old(optind)], old(nextchar), old(optind))
    {
      var e := argv[optind];
      var name := NameOf(nextchar);
      var l := FindLong(name);
      handled := true;
      if l.ambiguous {
        nextchar := "";
        optind := optind + 1;
        r := Ambiguous;
      } else if l.found.Some? {
        var entry := cfg.longopts.value[l.found.value];
        optind := optind + 1;
        r := Long(l.found.value, None);
        if |name| < |nextchar| {
          if entry.hasArg != NoArgument {
            r := Long(l.found.value, Some(nextchar[|name| + 1..]));
          } else {
            r := Excess(l.found.value);
          }
        } else if entry.hasArg == RequiredArgument {
          if optind < argv.Length {
            r := Long(l.found.value, Some(argv[optind]));
            optind := optind + 1;
          } else {
            r := Missing(if cfg.optstring != "" && cfg.optstring[0] == ':' then ':' else '?');
          }
        }
        nextchar := "";
      } else if !cfg.longOnly || e[1] == '-' || Find(cfg.optstring, nextchar[0]).None? {
        nextchar := "";
        optind := optind + 1;
        r := Unknown(None);
      } else {
        handled := false;
        r := End;
      }
    }

    // The next short option character
    method DecodeShort() returns (r: Answer)
      requires optind < argv.Length && |argv[optind]| >= 2 && nextchar != ""
      requires LongEligible(cfg, argv[optind]) ==>
                 FallsThrough(cfg, argv[optind], nextchar)
                 && var l := LookupLong(cfg, NameOf(nextchar)); !l.ambiguous && l.found.None?
      modifies this`optind, this`nextchar
      ensures r == Reading(cfg, argv[old(optind)], old(nextchar), old(After()))
      ensures Moved(argv[old(optind)], old(nextchar), old(optind))
    {
      assert !Claims(cfg, argv[optind], "");
      var c := nextchar[0];
      nextchar := nextchar[1..];
      if nextchar == "" { optind := optind + 1; }
      var entry := Find(cfg.optstring, c);
      if entry.None? || c == ':' {
        return Unknown(Some(c));
      }
      r := Short(c, None);
      if ColonAt(entry, 1) {
        if ColonAt(entry, 2) {
          if nextchar != "" {
            r := Short(c, Some(nextchar));
            optind := optind + 1;
          }
        } else if nextchar != "" {
          r := Short(c, Some(nextchar));
          optind := optind + 1;
        } else if optind == argv.Length {
          r := Missing(if cfg.optstring[0] == ':' then ':' else '?');
        } else {
          r := Short(c, Some(argv[optind]));
          optind := optind + 1;
        }
        nextchar := "";
      }
    }

    // Between two calls
    ghost predicate Valid()
      reads this, argv
    {
      && 1 <= firstNonopt <= lastNonopt <= optind <= argv.Length && argv[0] == program
      && cfg.ordering != ReturnInOrder && (cfg.ordering == RequireOrder ==> firstNonopt == lastNonopt)
      && (nextchar != "" ==> optind < argv.Length && IsOption(argv[optind]) && |nextchar| < |argv[optind]|)
      && goal == Reassembled(cfg, argv[..], firstNonopt, lastNonopt, optind, nextchar, heard)
    }

    // What is left to be read of the current element
    ghost function Left(): nat
      requires optind <= argv.Length
      reads this`optind, this`nextchar, argv
    {
      if nextchar != "" then |nextchar| else if optind < argv.Length then |argv[optind]| else 0
    }

    // _getopt_initialize, with optind 1 as it is before the first call
    constructor (cfg: Config, argv: array<string>, posixlyCorrect: bool)
      requires argv.Length >= 1 && Plain(cfg.optstring) && cfg.ordering == OrderingOf(cfg.optstring, posixlyCorrect)
      ensures Valid() && !ended && heard == [] && this.cfg == cfg && this.argv == argv
      ensures program == argv[0] && goal == Parse(cfg, argv[1..])
    {
      this.cfg, this.argv := cfg, argv;
      optind, nextchar, firstNonopt, lastNonopt := 1, "", 1, 1;
      program, goal, heard, ended := argv[0], Parse(cfg, argv[1..]), [], false;
      new;
      assert argv[..][1..] == argv[1..] && argv[..][1..1] == [];
    }

    // The operands skipped so far begin here and end at optind
    ghost function Skipped(): nat
      reads this`optind, this`firstNonopt, this`lastNonopt
    {
      if firstNonopt == lastNonopt then optind else firstNonopt
    }

    // Before the element at optind is looked at
    ghost predicate Ready()
      reads this, argv
    {
      && 1 <= firstNonopt <= lastNonopt <= optind <= argv.Length && argv[0] == program
      && (firstNonopt != lastNonopt ==> lastNonopt == optind)
      && goal == Reassembled(cfg, argv[..], Skipped(), optind, optind, "", heard)
    }

    // Bring the options just processed before the operands skipped earlier
    method MoveOptions()
      requires Valid() && nextchar == "" && cfg.ordering == Permute
      modifies argv, this`firstNonopt, this`lastNonopt
      ensures 1 <= firstNonopt <= optind <= argv.Length && argv[0] == program
      ensures argv[optind..] == old(argv[optind..])
      ensures goal == Reassembled(cfg, argv[..], firstNonopt, optind, optind, "", heard)
    {
      ghost var s, f, l := argv[..], firstNonopt, lastNonopt;
      if firstNonopt != lastNonopt && lastNonopt != optind {
        Exchange();
        ReassembledExchange(cfg, s, argv[..], f, l, optind, heard);
      } else if lastNonopt != optind {
        ReassembledNoOperands(cfg, s, f, optind, heard);
        firstNonopt := optind;
      }
    }

    // Then skip the operands that come next
    method SkipOperands()
      requires Valid() && nextchar == "" && cfg.ordering == Permute
      modifies argv, this`optind, this`firstNonopt, this`lastNonopt
      ensures Valid() && lastNonopt == optind && optind >= old(optind)
      ensures optind == old(optind) < argv.Length ==> argv[optind] == old(argv[optind])
      ensures optind < argv.Length ==> !IsNonOption(argv[optind])
    {
      MoveOptions();
      SkipLoop();
    }

    method SkipLoop()
      requires 1 <= firstNonopt <= optind <= argv.Length && argv[0] == program && nextchar == ""
      requires cfg.ordering == Permute
      requires goal == Reassembled(cfg, argv[..], firstNonopt, optind, optind, "", heard)
      modifies this`optind, this`lastNonopt
      ensures Valid() && lastNonopt == optind && optind >= old(optind)
      ensures optind < argv.Length ==> !IsNonOption(argv[optind])
    {
      while optind < argv.Length && IsNonOption(argv[optind])
        modifies this`optind
        invariant 1 <= firstNonopt <= optind <= argv.Length && optind >= old(optind)
        invariant goal == Reassembled(cfg, argv[..], firstNonopt, optind, optind, "", heard)
      {
        ReassembledSkip(cfg, argv[..], firstNonopt, optind, heard);
        optind := optind + 1;
      }
      lastNonopt := optind;
    }

    // The part of _getopt_internal that permutes, if the ordering allows it
    method SkipAny()
      requires Valid() && nextchar == ""
      modifies argv, this`optind, this`firstNonopt, this`lastNonopt
      ensures Valid() && Ready() && optind >= old(optind)
      ensures optind == old(optind) < argv.Length ==> argv[optind] == old(argv[optind])
      ensures optind < argv.Length && IsNonOption(argv[optind]) ==> cfg.ordering == RequireOrder
    {
      if cfg.ordering == Permute {
        SkipOperands();
      } else {
        ReassembledNoOperands(cfg, argv[..], firstNonopt, optind, heard);
      }
    }

    // The part of _getopt_internal that deals with "--"
    method StopAtDashes()
      requires Ready() && optind < argv.Length && argv[optind] == "--"
      modifies argv, this`optind, this`firstNonopt, this`lastNonopt
      ensures 1 <= firstNonopt <= lastNonopt == optind == argv.Length && argv[0] == program
      ensures goal == Parsed(argv[..][1..firstNonopt], argv[..][firstNonopt..], heard)
    {
      ghost var s, f := argv[..], Skipped();
      MoveDashes();
      ReassembledEnd(cfg, s, argv[..], f, optind - 1, heard);
      lastNonopt := argv.Length;
      optind := argv.Length;
    }

    // Bring the "--" before the operands skipped earlier
    method MoveDashes()
      requires firstNonopt <= lastNonopt <= optind < argv.Length
      requires firstNonopt != lastNonopt ==> lastNonopt == optind
      modifies argv, this`optind, this`firstNonopt, this`lastNonopt
      ensures argv[..] == Rotated(old(argv[..]), old(Skipped()), old(optind), old(optind) + 1)
      ensures firstNonopt == old(Skipped()) + 1 && optind == old(optind) + 1
    {
      optind := optind + 1;
      if firstNonopt != lastNonopt && lastNonopt != optind {
        Exchange();
      } else if firstNonopt == lastNonopt {
        RotatedNothing(argv[..], optind - 1, optind - 1, optind);
        firstNonopt := optind;
      }
    }

    // When everything has been scanned, point optind at the operands
    method FinishScan()
      requires 1 <= firstNonopt <= lastNonopt <= optind == argv.Length && argv[0] == program
      requires goal == Parsed(argv[..][1..Skipped()], argv[..][Skipped()..], heard)
      modifies this`optind, this`ended
      ensures ended
      ensures Sorted()
    {
      if firstNonopt != lastNonopt { optind := firstNonopt; }
      ended := true;
    }

    // The part of _getopt_internal that reads the option element at optind
    method Decode() returns (r: Answer)
      requires optind < argv.Length && |argv[optind]| >= 2 && nextchar != ""
      modifies this`optind, this`nextchar
      ensures r == Reading(cfg, argv[old(optind)], old(nextchar), old(After()))
      ensures Moved(argv[old(optind)], old(nextchar), old(optind))
    {
      if LongEligible(cfg, argv[optind]) {
        var handled;
        handled, r := DecodeLong();
        if handled { return; }
      }
      r := DecodeShort();
    }

    // Has everything been scanned and sorted?
    ghost predicate Sorted()
      reads this, argv
    {
      argv[..] == [program] + goal.options + goal.operands && optind == 1 + |goal.options| && heard == goal.answers
    }

    // An operand that is not permuted stops the scan
    method StopAtOperand()
      requires Ready() && optind < argv.Length && IsNonOption(argv[optind]) && cfg.ordering == RequireOrder
      requires firstNonopt == lastNonopt
      modifies this`ended
      ensures ended && Sorted()
    {
      OperandEnds(cfg, argv[..], optind, heard);
      assert argv[..] == [argv[0]] + argv[..][1..optind] + argv[..][optind..];
      ended := true;
    }

    // Is the scan over, at a "--", at the end, or at an operand that was not permuted?
    method StopHere() returns (done: bool)
      requires Ready() && (cfg.ordering == RequireOrder ==> firstNonopt == lastNonopt)
      requires optind < argv.Length && IsNonOption(argv[optind]) ==> cfg.ordering == RequireOrder
      modifies argv, this`optind, this`firstNonopt, this`lastNonopt, this`ended
      ensures done ==> ended && Sorted()
      ensures !done ==> optind < argv.Length && IsOption(argv[optind]) && argv[..] == old(argv[..])
      ensures !done ==> optind == old(optind) && firstNonopt == old(firstNonopt) && lastNonopt == old(lastNonopt)
      ensures !done ==> ended == old(ended)
    {
      if optind != argv.Length && argv[optind] == "--" {
        StopAtDashes();
        FinishScan();
        return true;
      }
      if optind == argv.Length {
        AllScanned(cfg, argv[..], Skipped(), heard);
        FinishScan();
        return true;
      }
      if IsNonOption(argv[optind]) {
        StopAtOperand();
        return true;
      }
      done := false;
    }

    // The part of _getopt_internal that moves on to the next option element
    method Advance() returns (done: bool)
      requires Valid() && nextchar == "" && !ended
      modifies argv, this`optind, this`nextchar, this`firstNonopt, this`lastNonopt, this`ended
      ensures done ==> ended && Sorted()
      ensures !done ==> !ended && Valid() && nextchar != "" && optind >= old(optind)
      ensures !done && optind == old(optind) ==> Left() < old(Left())
    {
      SkipAny();
      done := StopHere();
      if done { return; }
      ReassembledStart(cfg, argv[..], firstNonopt, lastNonopt, optind, heard);
      nextchar := argv[optind][1 + (if cfg.longopts.Some? && argv[optind][1] == '-' then 1 else 0)..];
    }

    // _getopt_internal. On the last call the command line is sorted: the program name, the
    // options with what they claim and any "--", then the operands from optind on, both in
    // the order they were given. Every other call gets on.
    method Next() returns (r: Answer)
      requires Valid() && !ended
      modifies argv, this`optind, this`nextchar, this`firstNonopt, this`lastNonopt, this`heard, this`ended
      ensures ended == r.End?
      ensures r.End? ==> Sorted() && heard == old(heard)
      ensures !r.End? ==> Valid() && heard == old(heard) + [r]
      ensures !r.End? ==> optind >= old(optind) && (optind > old(optind) || Left() < old(Left()))
    {
      if nextchar == "" {
        var done := Advance();
        if done { return End; }
      }
      r := DecodeOn();
    }

    method DecodeOn() returns (r: Answer)
      requires Valid() && nextchar != ""
      modifies this`optind, this`nextchar, this`heard
      ensures Valid() && heard == old(heard) + [r] && !r.End?
      ensures optind >= old(optind) && (optind > old(optind) || Left() < old(Left()))
    {
      ghost var o, tail := optind, nextchar;
      r := Decode();
      ReassembledRead(cfg, argv[..], firstNonopt, lastNonopt, o, tail, optind, nextchar, heard);
      assert Second(argv[..][o..]) == old(After());
      heard := heard + [r];
    }

    // The loop that settings.pl has the program go through: it ends, having heard what the
    // options say from left to right
    method ScanAll() returns (rs: seq<Answer>)
      requires Valid() && !ended && heard == []
      modifies argv, this`optind, this`nextchar, this`firstNonopt, this`lastNonopt, this`heard, this`ended
      ensures ended && Sorted() && rs == goal.answers
    {
      rs := [];
      var r := Next();
      while r != End
        invariant heard == rs + if r == End then [] else [r]
        invariant ended == r.End? && if r == End then Sorted() else Valid()
        decreases if r == End then 0 else 1, argv.Length - optind, if r == End then 0 else Left()
      {
        rs := rs + [r];
        r := Next();
      }
    }
  }
}
