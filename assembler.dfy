/** `parse_assembly` (helpers/asm.py): a first pass that tracks the current
    section and binds every `label:` line of a `.code` section to the number
    of instructions above it, and a second pass that encodes instructions and
    collects the data sections. Both passes are specified as folds over the
    lines (`FirstPassFrom`, `SecondPass`) and implemented by the loops of
    `ParseAssembly`. */
module Assembler {
  import opened Wrappers
  import PyText
  import Isa

  /** The register names pass 2 substitutes. */
  const RegisterNames: map<string, int> :=
    map["Rnode" := 0, "Rnbr" := 1, "Rval" := 2, "Racc" := 3, "Rtmp" := 4, "Rzero" := 5]

  /** A source line with its `;` comment removed and surrounding whitespace
      stripped. */
  function Clean(line: string): string {
    PyText.Strip(PyText.StripComment(line))
  }

  predicate IsDirective(l: string) {
    |l| > 0 && l[0] == '.'
  }

  predicate IsLabel(l: string) {
    |l| > 0 && l[|l| - 1] == ':'
  }

  /** A cleaned line that is an instruction when it appears in `.code`. */
  predicate IsInstructionText(l: string) {
    l != [] && !IsDirective(l) && !IsLabel(l)
  }

  // ---------------------------------------------------------------- pass 1

  /** The variables of pass 1: `section`, `pc` and `code_labels`. */
  datatype Symbols = Symbols(section: Option<string>, pc: nat, labels: map<string, nat>)

  /** Every source line as both passes see it, comment removed and stripped. */
  function CleanAll(lines: seq<string>): (ls: seq<string>)
    ensures |ls| == |lines| && forall i :: 0 <= i < |lines| ==> ls[i] == Clean(lines[i])
  {
    seq(|lines|, i requires 0 <= i < |lines| => Clean(lines[i]))
  }

  /** One iteration of pass 1 over the cleaned line `l`. */
  function Pass1Step(st: Symbols, l: string): (r: Symbols)
    ensures st.pc <= r.pc <= st.pc + 1
    ensures forall name :: name in r.labels ==> name in st.labels || r.labels[name] == st.pc
    ensures forall name :: name in r.labels ==> r.labels[name] == st.pc || r.labels[name] == st.labels[name]
  {
    if l == [] then st
    else if IsDirective(l) then st.(section := Some(l))
    else if st.section == Some(".code") then
      if IsLabel(l) then st.(labels := st.labels[l[..|l| - 1] := st.pc])
      else st.(pc := st.pc + 1)
    else st
  }

  /** Pass 1 over the cleaned lines `ls`, entered in section `start`. */
  function FirstPassFrom(start: Option<string>, ls: seq<string>): (r: Symbols)
    ensures r.pc <= |ls|
    ensures forall name :: name in r.labels ==> r.labels[name] <= r.pc
  {
    if |ls| == 0 then Symbols(start, 0, map[])
    else Pass1Step(FirstPassFrom(start, ls[..|ls| - 1]), ls[|ls| - 1])
  }

  /** `ls[j]` is an instruction for a pass entered in section `start`. */
  predicate InstructionAt(start: Option<string>, ls: seq<string>, j: nat)
    requires j < |ls|
  {
    FirstPassFrom(start, ls[..j]).section == Some(".code") && IsInstructionText(ls[j])
  }

  /** `ls[d]` is a `name:` line inside a `.code` section. */
  predicate DefinesLabel(ls: seq<string>, d: nat, name: string)
    requires d < |ls|
  {
    var l := ls[d];
    && FirstPassFrom(None, ls[..d]).section == Some(".code")
    && !IsDirective(l) && IsLabel(l) && l[..|l| - 1] == name
  }

  // ---------------------------------------------------------------- pass 2

  /** `code`, `data['row_index']`, `data['col_index']`, `data['values']`, `mem`. */
  datatype Assembly = Assembly(code: seq<nat>, rowIndex: seq<int>, colIndex: seq<int>,
                               values: seq<int>, mem: seq<int>)

  /** The exceptions pass 2 can raise. */
  datatype AsmError =
    | Encode(e: Isa.EncodeError)   // from `encode_instruction`
    | BadInteger(text: string)     // ValueError from `int(text, 0)`

  /** Pass 2's substitution of one operand token: a register name first,
      then a label, otherwise the token itself. */
  function Resolve(labels: map<string, nat>, token: string): (r: Isa.Operand)
    ensures token in RegisterNames ==> r == Isa.Num(RegisterNames[token])
    ensures token !in RegisterNames && token in labels ==> r == Isa.Num(labels[token])
    ensures token !in RegisterNames && token !in labels ==> r == Isa.Token(token)
  {
    if token in RegisterNames then Isa.Num(RegisterNames[token])
    else if token in labels then Isa.Num(labels[token])
    else Isa.Token(token)
  }

  function ResolveAll(labels: map<string, nat>, tokens: seq<string>): (r: seq<Isa.Operand>)
    ensures |r| == |tokens| && forall k :: 0 <= k < |tokens| ==> r[k] == Resolve(labels, tokens[k])
  {
    seq(|tokens|, k requires 0 <= k < |tokens| => Resolve(labels, tokens[k]))
  }

  /** One `.code` instruction line: split, substitute, encode. */
  function EncodeLine(labels: map<string, nat>, l: string): (r: Result<nat, AsmError>)
    ensures var tokens := PyText.Split(l);
      r.Ok? <==> Isa.EncodeInstruction(tokens[0], ResolveAll(labels, tokens[1..])).Ok?
  {
    var tokens := PyText.Split(l);
    match Isa.EncodeInstruction(tokens[0], ResolveAll(labels, tokens[1..]))
    case Ok(w) => Ok(w)
    case Err(e) => Err(Encode(e))
  }

  /** `int(token, 0)` for each token, in order, stopping at the first failure. */
  function ParseLiterals(tokens: seq<string>): (r: Result<seq<int>, AsmError>)
    ensures r.Ok? ==> |r.value| == |tokens|
    ensures r.Err? ==> r.error.BadInteger?
  {
    if |tokens| == 0 then Ok([])
    else
      var front :- ParseLiterals(tokens[..|tokens| - 1]);
      var last := tokens[|tokens| - 1];
      match PyText.ParseIntBase0(last)
      case Some(v) => Ok(front + [v])
      case None => Err(BadInteger(last))
  }

  /** Each value `ParseLiterals` returns is `int(token, 0)` of its token. */
  lemma {:induction false} LiteralAt(tokens: seq<string>, k: nat)
    requires ParseLiterals(tokens).Ok? && k < |tokens|
    ensures PyText.ParseIntBase0(tokens[k]) == Some(ParseLiterals(tokens).value[k])
  {
    var n := |tokens|;
    if k < n - 1 {
      LiteralAt(tokens[..n - 1], k);
    }
  }

  /** `ParseLiterals` fails only on a token `int(token, 0)` rejects, and
      reports that token. */
  lemma {:induction false} LiteralsFail(tokens: seq<string>)
    requires ParseLiterals(tokens).Err?
    ensures exists k :: 0 <= k < |tokens| && ParseLiterals(tokens).error == BadInteger(tokens[k])
                        && PyText.ParseIntBase0(tokens[k]).None?
  {
    var n := |tokens|;
    if ParseLiterals(tokens[..n - 1]).Err? {
      LiteralsFail(tokens[..n - 1]);
      var k :| 0 <= k < n - 1 && ParseLiterals(tokens[..n - 1]).error == BadInteger(tokens[..n - 1][k])
               && PyText.ParseIntBase0(tokens[..n - 1][k]).None?;
      assert tokens[..n - 1][k] == tokens[k];
    } else {
      assert PyText.ParseIntBase0(tokens[n - 1]).None?;
    }
  }

  /** When every token is a literal, `ParseLiterals` succeeds. */
  lemma {:induction false} LiteralsSucceed(tokens: seq<string>)
    requires forall k :: 0 <= k < |tokens| ==> PyText.ParseIntBase0(tokens[k]).Some?
    ensures ParseLiterals(tokens).Ok?
  {
    var n := |tokens|;
    if n > 0 {
      var front := tokens[..n - 1];
      assert forall k :: 0 <= k < |front| ==> front[k] == tokens[k];
      LiteralsSucceed(front);
      assert PyText.ParseIntBase0(tokens[n - 1]).Some?;
    }
  }

  /** The variables of pass 2. */
  datatype Pass2 = Pass2(section: Option<string>, out: Assembly)

  /** What pass 2 makes of the text of a line: `code` for an instruction of
      `.code`, `list` for a line of `.row_index`, `.col_index` or `.values`,
      `word` for a line of `.mem`. Pass 2 is stated for any readers, so its
      lemmas hold whatever they compute; `SourceReaders` are the ones
      `parse_assembly` uses. */
  datatype Readers = Readers(code: string -> Result<nat, AsmError>,
                             list: string -> Result<seq<int>, AsmError>,
                             word: string -> Option<int>)

  /** Split, substitute registers and `labels`, encode; `int(token, 0)` for
      every token; `int(line, 0)`. */
  function SourceReaders(labels: map<string, nat>): Readers {
    Readers(l => EncodeLine(labels, l), l => ParseLiterals(PyText.Split(l)), PyText.ParseIntBase0)
  }

  /** One iteration of pass 2 over the cleaned line `l`. */
  function Pass2Step(rd: Readers, st: Pass2, l: string): Result<Pass2, AsmError> {
    if l == [] then Ok(st)
    else if IsDirective(l) then Ok(st.(section := Some(l)))
    else if st.section == Some(".code") then
      if IsLabel(l) then Ok(st)
      else
        var w :- rd.code(l);
        Ok(st.(out := st.out.(code := st.out.code + [w])))
    else if st.section == Some(".row_index") then
      var vs :- rd.list(l);
      Ok(st.(out := st.out.(rowIndex := st.out.rowIndex + vs)))
    else if st.section == Some(".col_index") then
      var vs :- rd.list(l);
      Ok(st.(out := st.out.(colIndex := st.out.colIndex + vs)))
    else if st.section == Some(".values") then
      var vs :- rd.list(l);
      Ok(st.(out := st.out.(values := st.out.values + vs)))
    else if st.section == Some(".mem") then
      match rd.word(l)
      case Some(v) => Ok(st.(out := st.out.(mem := st.out.mem + [v])))
      case None => Err(BadInteger(l))
    else Ok(st)
  }

  /** Pass 2 over the cleaned lines `ls`, entered in section `start`. */
  function SecondPass(rd: Readers, start: Option<string>, ls: seq<string>): Result<Pass2, AsmError> {
    if |ls| == 0 then Ok(Pass2(start, Assembly([], [], [], [], [])))
    else
      var st :- SecondPass(rd, start, ls[..|ls| - 1]);
      Pass2Step(rd, st, ls[|ls| - 1])
  }

  /** Both passes over the cleaned lines: pass 2 starts in the section pass 1
      ended in. */
  function AssembleLines(ls: seq<string>): Result<Assembly, AsmError> {
    var symbols := FirstPassFrom(None, ls);
    var p :- SecondPass(SourceReaders(symbols.labels), symbols.section, ls);
    Ok(p.out)
  }

  /** `parse_assembly(lines)`. */
  function Assemble(lines: seq<string>): Result<Assembly, AsmError> {
    AssembleLines(CleanAll(lines))
  }

  // ------------------------------------------------------- fold unrolling

  lemma FirstPassExtend(start: Option<string>, lines: seq<string>, k: nat)
    requires k < |lines|
    ensures FirstPassFrom(start, lines[..k + 1]) == Pass1Step(FirstPassFrom(start, lines[..k]), lines[k])
  {
    assert lines[..k + 1][..k] == lines[..k];
  }

  lemma SecondPassExtend(rd: Readers, start: Option<string>, lines: seq<string>, k: nat)
    requires k < |lines|
    ensures SecondPass(rd, start, lines[..k + 1]) ==
      (match SecondPass(rd, start, lines[..k])
       case Ok(st) => Pass2Step(rd, st, lines[k])
       case Err(e) => Err(e))
  {
    assert lines[..k + 1][..k] == lines[..k];
  }

  // ------------------------------------------------------------ pass 1

  /** The index of the first line that is not blank after comment removal,
      `|lines|` when there is none. */
  function FirstSignificant(ls: seq<string>): (f: nat)
    ensures f <= |ls|
    ensures forall i :: 0 <= i < f ==> ls[i] == []
    ensures f < |ls| ==> ls[f] != []
  {
    if |ls| == 0 || ls[0] != [] then 0
    else 1 + FirstSignificant(ls[1..])
  }

  /** The first significant line is a section directive. */
  predicate StartsWithDirective(ls: seq<string>) {
    FirstSignificant(ls) < |ls| && IsDirective(ls[FirstSignificant(ls)])
  }

  /** Once the first significant line is a directive, the section a pass is
      entered in no longer matters: it sees the same `pc`, the same labels
      and, after that line, the same sections. */
  lemma {:induction false} StartIrrelevant(s: Option<string>, t: Option<string>, lines: seq<string>, k: nat)
    requires StartsWithDirective(lines) && k <= |lines|
    ensures var a, b := FirstPassFrom(s, lines[..k]), FirstPassFrom(t, lines[..k]);
      && a.pc == b.pc && a.labels == b.labels
      && (k > FirstSignificant(lines) ==> a.section == b.section)
      && (k <= FirstSignificant(lines) ==> a == Symbols(s, 0, map[]) && b == Symbols(t, 0, map[]))
  {
    if k > 0 {
      StartIrrelevant(s, t, lines, k - 1);
      FirstPassExtend(s, lines, k - 1);
      FirstPassExtend(t, lines, k - 1);
    }
  }

  /** An instruction line adds one to `pc`; every other line leaves it. */
  lemma PcStep(start: Option<string>, lines: seq<string>, k: nat)
    requires k < |lines|
    ensures FirstPassFrom(start, lines[..k + 1]).pc ==
      FirstPassFrom(start, lines[..k]).pc + (if InstructionAt(start, lines, k) then 1 else 0)
  {
    FirstPassExtend(start, lines, k);
  }

  /** `pc` does not move across lines that are not instructions. */
  lemma {:induction false} PcConstant(start: Option<string>, lines: seq<string>, d: nat, j: nat)
    requires d <= j <= |lines|
    requires forall e :: d <= e < j ==> !InstructionAt(start, lines, e)
    ensures FirstPassFrom(start, lines[..j]).pc == FirstPassFrom(start, lines[..d]).pc
  {
    if j > d {
      PcConstant(start, lines, d, j - 1);
      PcStep(start, lines, j - 1);
    }
  }

  /** A `name:` line in `.code` binds `name` to the current `pc`. */
  lemma Pass1BindsLabel(st: Symbols, l: string, name: string)
    requires st.section == Some(".code") && l != [] && !IsDirective(l) && IsLabel(l) && l[..|l| - 1] == name
    ensures name in Pass1Step(st, l).labels && Pass1Step(st, l).labels[name] == st.pc
  {
  }

  /** Any other line leaves the binding of `name` alone. */
  lemma Pass1KeepsLabel(st: Symbols, l: string, name: string)
    requires name in st.labels
    requires !(st.section == Some(".code") && l != [] && !IsDirective(l) && IsLabel(l) && l[..|l| - 1] == name)
    ensures name in Pass1Step(st, l).labels && Pass1Step(st, l).labels[name] == st.labels[name]
  {
  }

  /** A label keeps the address of its last definition: the number of
      instructions in `.code` sections above that line. */
  lemma {:induction false} LabelLastDefinition(lines: seq<string>, d: nat, name: string, k: nat)
    requires d < k <= |lines| && DefinesLabel(lines, d, name)
    requires forall e :: d < e < k ==> !DefinesLabel(lines, e, name)
    ensures name in FirstPassFrom(None, lines[..k]).labels
    ensures FirstPassFrom(None, lines[..k]).labels[name] == FirstPassFrom(None, lines[..d]).pc
  {
    FirstPassExtend(None, lines, k - 1);
    if k == d + 1 {
      Pass1BindsLabel(FirstPassFrom(None, lines[..d]), lines[d], name);
    } else {
      LabelLastDefinition(lines, d, name, k - 1);
      assert !DefinesLabel(lines, k - 1, name);
      Pass1KeepsLabel(FirstPassFrom(None, lines[..k - 1]), lines[k - 1], name);
    }
  }

  /** Every label pass 1 binds comes from a `name:` line in `.code`. */
  lemma {:induction false} LabelHasDefinition(lines: seq<string>, name: string, k: nat)
    requires k <= |lines| && name in FirstPassFrom(None, lines[..k]).labels
    ensures exists d :: 0 <= d < k && DefinesLabel(lines, d, name)
                        && FirstPassFrom(None, lines[..k]).labels[name] == FirstPassFrom(None, lines[..d]).pc
  {
    FirstPassExtend(None, lines, k - 1);
    if DefinesLabel(lines, k - 1, name) {
      LabelLastDefinition(lines, k - 1, name, k);
    } else {
      LabelHasDefinition(lines, name, k - 1);
    }
  }

  // ------------------------------------------------------------ pass 2

  /** The data lists of an assembly, named by their section heading. */
  datatype DataList = RowIndex | ColIndex | Values | Mem

  function Heading(d: DataList): (h: string)
    ensures IsDirective(h)
  {
    match d
    case RowIndex => ".row_index"
    case ColIndex => ".col_index"
    case Values => ".values"
    case Mem => ".mem"
  }

  function ListOf(a: Assembly, d: DataList): seq<int> {
    match d
    case RowIndex => a.rowIndex
    case ColIndex => a.colIndex
    case Values => a.values
    case Mem => a.mem
  }

  /** The integers one data line of section `d` contributes: every token for
      the three CSR lists, the whole line for `.mem`. */
  function LineData(rd: Readers, d: DataList, l: string): Option<seq<int>> {
    if d == Mem then
      match rd.word(l)
      case Some(v) => Some([v])
      case None => None
    else
      match rd.list(l)
      case Ok(vs) => Some(vs)
      case Err(_) => None
  }

  /** A line of section `section` that makes pass 2 raise. */
  predicate LineFails(rd: Readers, section: Option<string>, l: string) {
    && l != [] && !IsDirective(l)
    && (|| (section == Some(".code") && !IsLabel(l) && rd.code(l).Err?)
        || ((section == Some(".row_index") || section == Some(".col_index") || section == Some(".values"))
            && rd.list(l).Err?)
        || (section == Some(".mem") && rd.word(l).None?))
  }

  /** Line `j` fails, for a pass entered in section `s`. */
  predicate FailsAt(rd: Readers, s: Option<string>, ls: seq<string>, j: nat)
    requires j < |ls|
  {
    LineFails(rd, FirstPassFrom(s, ls[..j]).section, ls[j])
  }

  /** Pass 2 raises on a line exactly when `LineFails` says so, whatever it
      has built so far. */
  lemma StepFails(rd: Readers, st: Pass2, l: string)
    ensures Pass2Step(rd, st, l).Err? <==> LineFails(rd, st.section, l)
  {
  }

  /** The section pass 2 moves to is the one pass 1 moves to, and it
      appends an encoded word exactly where pass 1 counts an instruction. */
  lemma StepsAgree(rd: Readers, st: Pass2, sym: Symbols, l: string)
    requires st.section == sym.section && |st.out.code| == sym.pc
    requires Pass2Step(rd, st, l).Ok?
    ensures var next := Pass2Step(rd, st, l).value;
      && next.section == Pass1Step(sym, l).section
      && |next.out.code| == Pass1Step(sym, l).pc
      && (sym.section == Some(".code") && IsInstructionText(l) ==>
            rd.code(l).Ok? && next.out.code == st.out.code + [rd.code(l).value])
      && (!(sym.section == Some(".code") && IsInstructionText(l)) ==> next.out.code == st.out.code)
  {
  }

  /** On a data line of section `d`, pass 2 appends that line's integers to
      list `d` and leaves every other list alone. */
  lemma DataStep(rd: Readers, st: Pass2, l: string, d: DataList)
    requires st.section == Some(Heading(d)) && l != [] && !IsDirective(l)
    requires Pass2Step(rd, st, l).Ok?
    ensures LineData(rd, d, l).Some?
    ensures var next := Pass2Step(rd, st, l).value.out;
      && ListOf(next, d) == ListOf(st.out, d) + LineData(rd, d, l).value
      && next.code == st.out.code
      && forall e :: e != d ==> ListOf(next, e) == ListOf(st.out, e)
  {
  }

  /** Every iteration of pass 2 only appends to each list. */
  lemma StepGrows(rd: Readers, st: Pass2, l: string)
    requires Pass2Step(rd, st, l).Ok?
    ensures var next := Pass2Step(rd, st, l).value.out;
      && st.out.code <= next.code && st.out.rowIndex <= next.rowIndex
      && st.out.colIndex <= next.colIndex && st.out.values <= next.values
      && st.out.mem <= next.mem
  {
    var next := Pass2Step(rd, st, l).value.out;
    if l == [] || IsDirective(l) || (st.section == Some(".code") && IsLabel(l)) {
      assert next == st.out;
    } else if st.section == Some(".code") {
      assert next == st.out.(code := st.out.code + [rd.code(l).value]);
    } else {
      if st.section == Some(Heading(RowIndex)) {
        DataStep(rd, st, l, RowIndex);
      } else if st.section == Some(Heading(ColIndex)) {
        DataStep(rd, st, l, ColIndex);
      } else if st.section == Some(Heading(Values)) {
        DataStep(rd, st, l, Values);
      } else if st.section == Some(Heading(Mem)) {
        DataStep(rd, st, l, Mem);
      } else {
        assert next == st.out;
      }
    }
  }

  /** Pass 2 is in the section pass 1 is in, and has encoded one word for
      every instruction pass 1 counted. */
  lemma {:induction false} Pass2Tracks(rd: Readers, s: Option<string>, ls: seq<string>, k: nat)
    requires k <= |ls| && SecondPass(rd, s, ls[..k]).Ok?
    ensures var st := SecondPass(rd, s, ls[..k]).value;
      st.section == FirstPassFrom(s, ls[..k]).section && |st.out.code| == FirstPassFrom(s, ls[..k]).pc
  {
    if k > 0 {
      SecondPassExtend(rd, s, ls, k - 1);
      FirstPassExtend(s, ls, k - 1);
      Pass2Tracks(rd, s, ls, k - 1);
      StepsAgree(rd, SecondPass(rd, s, ls[..k - 1]).value, FirstPassFrom(s, ls[..k - 1]), ls[k - 1]);
    }
  }

  /** Pass 2 got through every prefix of lines it got through. */
  lemma {:induction false} Pass2PrefixOk(rd: Readers, s: Option<string>, ls: seq<string>, j: nat, k: nat)
    requires j <= k <= |ls| && SecondPass(rd, s, ls[..k]).Ok?
    ensures SecondPass(rd, s, ls[..j]).Ok?
  {
    if j < k {
      SecondPassExtend(rd, s, ls, k - 1);
      Pass2PrefixOk(rd, s, ls, j, k - 1);
    }
  }

  /** What pass 2 has built after a prefix is a prefix of what it builds
      after a longer one. */
  lemma {:induction false} Pass2Prefix(rd: Readers, s: Option<string>, ls: seq<string>, j: nat, k: nat)
    requires j <= k <= |ls| && SecondPass(rd, s, ls[..k]).Ok?
    ensures SecondPass(rd, s, ls[..j]).Ok?
    ensures var a, b := SecondPass(rd, s, ls[..j]).value.out, SecondPass(rd, s, ls[..k]).value.out;
      && a.code <= b.code && a.rowIndex <= b.rowIndex && a.colIndex <= b.colIndex
      && a.values <= b.values && a.mem <= b.mem
  {
    if j < k {
      SecondPassExtend(rd, s, ls, k - 1);
      Pass2Prefix(rd, s, ls, j, k - 1);
      StepGrows(rd, SecondPass(rd, s, ls[..k - 1]).value, ls[k - 1]);
    }
  }

  /** A line pass 2 got past did not fail. */
  lemma LinePassed(rd: Readers, s: Option<string>, ls: seq<string>, j: nat)
    requires j < |ls| && SecondPass(rd, s, ls[..j + 1]).Ok?
    ensures !FailsAt(rd, s, ls, j)
  {
    SecondPassExtend(rd, s, ls, j);
    Pass2Tracks(rd, s, ls, j);
    StepFails(rd, SecondPass(rd, s, ls[..j]).value, ls[j]);
  }

  /** When pass 2 raises, it does so on a line that fails after every line
      above it went through. */
  lemma {:induction false} Pass2Fails(rd: Readers, s: Option<string>, ls: seq<string>, k: nat)
    requires k <= |ls| && SecondPass(rd, s, ls[..k]).Err?
    ensures exists j :: 0 <= j < k && SecondPass(rd, s, ls[..j]).Ok?
                        && FailsAt(rd, s, ls, j)
  {
    SecondPassExtend(rd, s, ls, k - 1);
    var front := SecondPass(rd, s, ls[..k - 1]);
    if front.Err? {
      Pass2Fails(rd, s, ls, k - 1);
    } else {
      Pass2Tracks(rd, s, ls, k - 1);
      StepFails(rd, front.value, ls[k - 1]);
    }
  }

  /** Pass 2 succeeds on a prefix exactly when no line of it fails. */
  lemma Pass2Succeeds(rd: Readers, s: Option<string>, ls: seq<string>, k: nat)
    requires k <= |ls|
    ensures SecondPass(rd, s, ls[..k]).Ok? <==>
      forall j :: 0 <= j < k ==> !FailsAt(rd, s, ls, j)
  {
    if SecondPass(rd, s, ls[..k]).Ok? {
      forall j | 0 <= j < k
        ensures !FailsAt(rd, s, ls, j)
      {
        Pass2Prefix(rd, s, ls, j + 1, k);
        LinePassed(rd, s, ls, j);
      }
    } else {
      Pass2Fails(rd, s, ls, k);
    }
  }

  lemma SecondPassSucceeds(rd: Readers, s: Option<string>, ls: seq<string>)
    requires forall j :: 0 <= j < |ls| ==> !FailsAt(rd, s, ls, j)
    ensures SecondPass(rd, s, ls).Ok?
  {
    assert ls[..|ls|] == ls;
    Pass2Succeeds(rd, s, ls, |ls|);
  }

  /** The word pass 2 encodes for instruction line `j` sits at the address
      pass 1 gave that line. */
  lemma CodeAt(rd: Readers, s: Option<string>, ls: seq<string>, j: nat)
    requires j < |ls| && SecondPass(rd, s, ls).Ok? && InstructionAt(s, ls, j)
    ensures rd.code(ls[j]).Ok?
    ensures var code := SecondPass(rd, s, ls).value.out.code;
      FirstPassFrom(s, ls[..j]).pc < |code| && code[FirstPassFrom(s, ls[..j]).pc] == rd.code(ls[j]).value
  {
    assert ls[..|ls|] == ls;
    Pass2Prefix(rd, s, ls, j + 1, |ls|);
    Pass2Prefix(rd, s, ls, j, j + 1);
    SecondPassExtend(rd, s, ls, j);
    Pass2Tracks(rd, s, ls, j);
    StepsAgree(rd, SecondPass(rd, s, ls[..j]).value, FirstPassFrom(s, ls[..j]), ls[j]);
  }

  /** The integers of data line `j` of section `d` sit in list `d` right
      after those of the lines above it. */
  lemma DataAt(rd: Readers, s: Option<string>, ls: seq<string>, j: nat, d: DataList)
    requires j < |ls| && SecondPass(rd, s, ls).Ok?
    requires FirstPassFrom(s, ls[..j]).section == Some(Heading(d)) && ls[j] != [] && !IsDirective(ls[j])
    ensures LineData(rd, d, ls[j]).Some? && SecondPass(rd, s, ls[..j]).Ok?
    ensures var before := ListOf(SecondPass(rd, s, ls[..j]).value.out, d);
      var all := ListOf(SecondPass(rd, s, ls).value.out, d);
      var vs := LineData(rd, d, ls[j]).value;
      |before| + |vs| <= |all| && all[|before|..|before| + |vs|] == vs
  {
    assert ls[..|ls|] == ls;
    Pass2Prefix(rd, s, ls, j + 1, |ls|);
    Pass2Prefix(rd, s, ls, j, j + 1);
    SecondPassExtend(rd, s, ls, j);
    Pass2Tracks(rd, s, ls, j);
    DataStep(rd, SecondPass(rd, s, ls[..j]).value, ls[j], d);
  }

  // ------------------------------------------------ the whole assembler

  /** Both passes entered with no section: what `parse_assembly` would do if
      pass 2 reset `section` before it starts. */
  function AssembleFresh(ls: seq<string>): Result<Assembly, AsmError> {
    var symbols := FirstPassFrom(None, ls);
    var p :- SecondPass(SourceReaders(symbols.labels), None, ls);
    Ok(p.out)
  }

  /** Once the first significant line is a directive, pass 2 ends the same
      way whichever section it was entered in. */
  lemma {:induction false} EntryIrrelevant(rd: Readers, s: Option<string>, t: Option<string>, ls: seq<string>, k: nat)
    requires StartsWithDirective(ls) && k <= |ls|
    ensures k <= FirstSignificant(ls) ==>
      && SecondPass(rd, s, ls[..k]) == Ok(Pass2(s, Assembly([], [], [], [], [])))
      && SecondPass(rd, t, ls[..k]) == Ok(Pass2(t, Assembly([], [], [], [], [])))
    ensures k > FirstSignificant(ls) ==> SecondPass(rd, s, ls[..k]) == SecondPass(rd, t, ls[..k])
  {
    if k > 0 {
      EntryIrrelevant(rd, s, t, ls, k - 1);
      SecondPassExtend(rd, s, ls, k - 1);
      SecondPassExtend(rd, t, ls, k - 1);
      var f := FirstSignificant(ls);
      if k - 1 < f {
        BlankStep(rd, Pass2(s, Assembly([], [], [], [], [])), ls[k - 1]);
        BlankStep(rd, Pass2(t, Assembly([], [], [], [], [])), ls[k - 1]);
      } else if k - 1 == f {
        DirectiveStep(rd, Pass2(s, Assembly([], [], [], [], [])), ls[k - 1]);
        DirectiveStep(rd, Pass2(t, Assembly([], [], [], [], [])), ls[k - 1]);
      }
    }
  }

  /** An instruction line of `.code` appends its encoding. */
  lemma InstructionStep(rd: Readers, st: Pass2, l: string)
    requires st.section == Some(".code") && IsInstructionText(l) && rd.code(l).Ok?
    ensures Pass2Step(rd, st, l) == Ok(st.(out := st.out.(code := st.out.code + [rd.code(l).value])))
  {
  }

  /** Outside the five sections pass 2 knows (before any directive, or in
      one such as `.data`), every line other than a directive is ignored. */
  lemma IgnoredStep(rd: Readers, st: Pass2, l: string)
    requires l != [] && !IsDirective(l)
    requires st.section != Some(".code") && st.section != Some(".row_index") && st.section != Some(".col_index")
    requires st.section != Some(".values") && st.section != Some(".mem")
    ensures Pass2Step(rd, st, l) == Ok(st)
  {
  }

  lemma BlankStep(rd: Readers, st: Pass2, l: string)
    requires l == []
    ensures Pass2Step(rd, st, l) == Ok(st)
  {
  }

  lemma DirectiveStep(rd: Readers, st: Pass2, l: string)
    requires IsDirective(l)
    ensures Pass2Step(rd, st, l) == Ok(st.(section := Some(l)))
  {
  }

  /** For a file that starts with a directive, the section pass 2 inherits
      from pass 1 makes no difference. */
  lemma AsWrittenAgrees(ls: seq<string>)
    requires StartsWithDirective(ls)
    ensures AssembleLines(ls) == AssembleFresh(ls)
  {
    var sym := FirstPassFrom(None, ls);
    assert ls[..|ls|] == ls;
    EntryIrrelevant(SourceReaders(sym.labels), sym.section, None, ls, |ls|);
  }

  /** `len(code)` is pass 1's final `pc`. */
  lemma CodeLength(ls: seq<string>)
    requires AssembleFresh(ls).Ok?
    ensures |AssembleFresh(ls).value.code| == FirstPassFrom(None, ls).pc
  {
    assert ls[..|ls|] == ls;
    Pass2Tracks(SourceReaders(FirstPassFrom(None, ls).labels), None, ls, |ls|);
  }

  /** Instruction line `j` is encoded, labels substituted, at the address
      pass 1 counted for it. */
  lemma CodeOfLine(ls: seq<string>, j: nat)
    requires AssembleFresh(ls).Ok? && j < |ls| && InstructionAt(None, ls, j)
    ensures var labels := FirstPassFrom(None, ls).labels;
      var pc := FirstPassFrom(None, ls[..j]).pc;
      && EncodeLine(labels, ls[j]).Ok?
      && pc < |AssembleFresh(ls).value.code|
      && AssembleFresh(ls).value.code[pc] == EncodeLine(labels, ls[j]).value
  {
    var labels := FirstPassFrom(None, ls).labels;
    CodeAt(SourceReaders(labels), None, ls, j);
    assert SourceReaders(labels).code(ls[j]) == EncodeLine(labels, ls[j]);
  }

  /** `code[code_labels[L]]` is the encoding of the first instruction after
      the last definition of `L`. */
  lemma LabelAddressesInstruction(ls: seq<string>, d: nat, name: string, j: nat)
    requires AssembleFresh(ls).Ok? && d < j < |ls| && DefinesLabel(ls, d, name)
    requires forall e :: d < e < |ls| ==> !DefinesLabel(ls, e, name)
    requires InstructionAt(None, ls, j)
    requires forall e :: d < e < j ==> !InstructionAt(None, ls, e)
    ensures var labels := FirstPassFrom(None, ls).labels;
      && name in labels && labels[name] < |AssembleFresh(ls).value.code|
      && EncodeLine(labels, ls[j]).Ok?
      && AssembleFresh(ls).value.code[labels[name]] == EncodeLine(labels, ls[j]).value
  {
    assert ls[..|ls|] == ls;
    LabelLastDefinition(ls, d, name, |ls|);
    PcConstant(None, ls, d, j);
    CodeOfLine(ls, j);
  }

  /** Each label is bound to the `pc` of a line that defines it. */
  lemma LabelsAreDefined(ls: seq<string>, name: string)
    requires name in FirstPassFrom(None, ls).labels
    ensures exists d ::
      && 0 <= d < |ls| && DefinesLabel(ls, d, name)
      && FirstPassFrom(None, ls).labels[name] == FirstPassFrom(None, ls[..d]).pc
  {
    assert ls[..|ls|] == ls;
    LabelHasDefinition(ls, name, |ls|);
  }

  /** When assembly succeeds, no line failed in its section. */
  lemma AssembledLinesPass(ls: seq<string>, j: nat)
    requires AssembleFresh(ls).Ok? && j < |ls|
    ensures !FailsAt(SourceReaders(FirstPassFrom(None, ls).labels), None, ls, j)
  {
    FreshPrefix(ls, j + 1);
    LinePassed(SourceReaders(FirstPassFrom(None, ls).labels), None, ls, j);
  }

  lemma FreshPrefix(ls: seq<string>, j: nat)
    requires AssembleFresh(ls).Ok? && j <= |ls|
    ensures SecondPass(SourceReaders(FirstPassFrom(None, ls).labels), None, ls[..j]).Ok?
  {
    assert ls[..|ls|] == ls;
    Pass2PrefixOk(SourceReaders(FirstPassFrom(None, ls).labels), None, ls, j, |ls|);
  }

  /** Assembly succeeds when no line fails in its section. */
  lemma AssembleSucceeds(ls: seq<string>)
    requires forall j :: 0 <= j < |ls| ==> !FailsAt(SourceReaders(FirstPassFrom(None, ls).labels), None, ls, j)
    ensures AssembleFresh(ls).Ok?
  {
    SecondPassSucceeds(SourceReaders(FirstPassFrom(None, ls).labels), None, ls);
  }

  /** The integers data line `j` yields as a line of section `d` sit in
      list `d` of `a`, right after those of the lines above it. */
  ghost predicate DataFollows(ls: seq<string>, j: nat, d: DataList, a: Assembly)
    requires j < |ls|
  {
    var rd := SourceReaders(FirstPassFrom(None, ls).labels);
    && LineData(rd, d, ls[j]).Some?
    && SecondPass(rd, None, ls[..j]).Ok?
    && var before := ListOf(SecondPass(rd, None, ls[..j]).value.out, d);
       var all := ListOf(a, d);
       var vs := LineData(rd, d, ls[j]).value;
       |before| + |vs| <= |all| && all[|before|..|before| + |vs|] == vs
  }

  /** The integers of a data line of section `d` are appended to list `d`,
      after those of the lines above it. */
  lemma DataOfLine(ls: seq<string>, j: nat, d: DataList)
    requires AssembleFresh(ls).Ok? && j < |ls|
    requires FirstPassFrom(None, ls[..j]).section == Some(Heading(d)) && ls[j] != [] && !IsDirective(ls[j])
    ensures DataFollows(ls, j, d, AssembleFresh(ls).value)
  {
    var rd := SourceReaders(FirstPassFrom(None, ls).labels);
    var all := SecondPass(rd, None, ls);
    assert all.Ok? && AssembleFresh(ls).value == all.value.out;
    DataAt(rd, None, ls, j, d);
  }

  // ------------------------------------- `parse_assembly` on directive-first files

  /** `parse_assembly` as written, on a file whose first significant line is
      a directive: `len(code)` is pass 1's final `pc`. */
  lemma ParsedCodeLength(lines: seq<string>)
    requires StartsWithDirective(CleanAll(lines)) && Assemble(lines).Ok?
    ensures |Assemble(lines).value.code| == FirstPassFrom(None, CleanAll(lines)).pc
  {
    AsWrittenAgrees(CleanAll(lines));
    CodeLength(CleanAll(lines));
  }

  /** `parse_assembly` as written puts cleaned instruction line `j` of such a
      file, labels substituted, at the address pass 1 counted for it. */
  lemma ParsedCodeOfLine(lines: seq<string>, j: nat)
    requires StartsWithDirective(CleanAll(lines)) && Assemble(lines).Ok?
    requires j < |lines| && InstructionAt(None, CleanAll(lines), j)
    ensures var ls := CleanAll(lines);
      var labels := FirstPassFrom(None, ls).labels;
      var pc := FirstPassFrom(None, ls[..j]).pc;
      && EncodeLine(labels, ls[j]).Ok?
      && pc < |Assemble(lines).value.code|
      && Assemble(lines).value.code[pc] == EncodeLine(labels, ls[j]).value
  {
    AsWrittenAgrees(CleanAll(lines));
    CodeOfLine(CleanAll(lines), j);
  }

  /** In `parse_assembly`'s result for such a file, `code[code_labels[L]]`
      is the encoding of the first instruction after the last definition of
      `L`. */
  lemma ParsedLabelAddress(lines: seq<string>, d: nat, name: string, j: nat)
    requires StartsWithDirective(CleanAll(lines)) && Assemble(lines).Ok?
    requires d < j < |lines| && DefinesLabel(CleanAll(lines), d, name)
    requires forall e :: d < e < |lines| ==> !DefinesLabel(CleanAll(lines), e, name)
    requires InstructionAt(None, CleanAll(lines), j)
    requires forall e :: d < e < j ==> !InstructionAt(None, CleanAll(lines), e)
    ensures var ls := CleanAll(lines);
      var labels := FirstPassFrom(None, ls).labels;
      && name in labels && labels[name] < |Assemble(lines).value.code|
      && EncodeLine(labels, ls[j]).Ok?
      && Assemble(lines).value.code[labels[name]] == EncodeLine(labels, ls[j]).value
  {
    AsWrittenAgrees(CleanAll(lines));
    LabelAddressesInstruction(CleanAll(lines), d, name, j);
  }

  /** No cleaned line of `ls` fails in the section pass 1 puts it in. */
  predicate NoLineFails(ls: seq<string>) {
    forall j :: 0 <= j < |ls| ==> !FailsAt(SourceReaders(FirstPassFrom(None, ls).labels), None, ls, j)
  }

  /** `parse_assembly` returns normally on such a file exactly when no
      cleaned line fails in its section. */
  lemma ParsedSucceeds(lines: seq<string>)
    requires StartsWithDirective(CleanAll(lines))
    ensures Assemble(lines).Ok? <==> NoLineFails(CleanAll(lines))
  {
    var ls := CleanAll(lines);
    assert NoLineFails(ls) ==> AssembleFresh(ls).Ok? by {
      if NoLineFails(ls) {
        AssembleSucceeds(ls);
      }
    }
    assert AssembleFresh(ls).Ok? ==> NoLineFails(ls) by {
      if AssembleFresh(ls).Ok? {
        forall j | 0 <= j < |ls|
          ensures !FailsAt(SourceReaders(FirstPassFrom(None, ls).labels), None, ls, j)
        {
          AssembledLinesPass(ls, j);
        }
      }
    }
    assert Assemble(lines) == AssembleFresh(ls) by {
      AsWrittenAgrees(ls);
    }
  }

  /** In `parse_assembly`'s result for such a file, the integers of a data
      line of section `d` follow those of the lines above it in list `d`. */
  lemma ParsedDataOfLine(lines: seq<string>, j: nat, d: DataList)
    requires StartsWithDirective(CleanAll(lines)) && Assemble(lines).Ok? && j < |lines|
    requires var ls := CleanAll(lines);
      FirstPassFrom(None, ls[..j]).section == Some(Heading(d)) && ls[j] != [] && !IsDirective(ls[j])
    ensures DataFollows(CleanAll(lines), j, d, Assemble(lines).value)
  {
    var ls := CleanAll(lines);
    assert Assemble(lines) == AssembleFresh(ls) by {
      AsWrittenAgrees(ls);
    }
    DataOfLine(ls, j, d);
  }

  /** Pass 1 over an instruction `l` followed by `.code` counts nothing:
      `l` precedes every section. */
  lemma LeadingLinePass1(l: string)
    requires IsInstructionText(l)
    ensures FirstPassFrom(None, [l, ".code"]) == Symbols(Some(".code"), 0, map[])
  {
    var ls := [l, ".code"];
    assert ls[..1] == [l] && ls[..1][..0] == [];
    assert FirstPassFrom(None, ls[..1]) == Symbols(None, 0, map[]);
  }

  /** Without a leading directive, the lines above the first one are
      assembled in the section the file ends in, which pass 1 never saw: an
      instruction `l` followed by `.code` gives one word of code while pass
      1 counted none (`HALT` is such an `l`). */
  lemma LeadingInstructionMisplaced(l: string)
    requires IsInstructionText(l) && EncodeLine(map[], l).Ok?
    ensures AssembleLines([l, ".code"]) == Ok(Assembly([EncodeLine(map[], l).value], [], [], [], []))
  {
    var ls := [l, ".code"];
    var empty := Assembly([], [], [], [], []);
    var w := EncodeLine(map[], l).value;
    LeadingLinePass1(l);
    assert ls[..2] == ls && ls[..0] == [];
    var rd := SourceReaders(map[]);
    assert rd.code(l) == EncodeLine(map[], l);
    SecondPassExtend(rd, Some(".code"), ls, 0);
    SecondPassExtend(rd, Some(".code"), ls, 1);
    InstructionStep(rd, Pass2(Some(".code"), empty), l);
    assert empty.code + [w] == [w];
    DirectiveStep(rd, Pass2(Some(".code"), empty.(code := [w])), ".code");
  }

  /** Pass 2 entered with no section skips that leading line, as pass 1 did. */
  lemma LeadingInstructionSkipped(l: string)
    requires IsInstructionText(l)
    ensures AssembleFresh([l, ".code"]) == Ok(Assembly([], [], [], [], []))
  {
    var ls := [l, ".code"];
    var empty := Assembly([], [], [], [], []);
    LeadingLinePass1(l);
    assert ls[..2] == ls && ls[..0] == [];
    var rd := SourceReaders(map[]);
    SecondPassExtend(rd, None, ls, 0);
    SecondPassExtend(rd, None, ls, 1);
    IgnoredStep(rd, Pass2(None, empty), l);
    DirectiveStep(rd, Pass2(None, empty), ".code");
  }

  /** `HALT` is an instruction line with no operands that encodes to 0. */
  lemma HaltEncodes()
    ensures IsInstructionText("HALT") && EncodeLine(map[], "HALT") == Ok(0)
  {
    HaltSplits();
    HaltWord();
    assert ResolveAll(map[], ["HALT"][1..]) == [];
  }

  lemma HaltSplits()
    ensures PyText.Split("HALT") == ["HALT"]
  {
    assert PyText.NoSeparator("HALT");
  }

  lemma HaltWord()
    ensures Isa.EncodeInstruction("HALT", []) == Ok(0)
  {
    assert "HALT" in Isa.NoOperandOps;
    Isa.EncodeNoOperand("HALT", []);
  }

  /** Every word the `code` reader returns fits 32 bits. */
  ghost predicate CodeFits(rd: Readers) {
    forall l :: rd.code(l).Ok? ==> rd.code(l).value < 0x1_0000_0000
  }

  lemma SourceReadersFit(labels: map<string, nat>)
    ensures CodeFits(SourceReaders(labels))
  {
    forall l | SourceReaders(labels).code(l).Ok?
      ensures SourceReaders(labels).code(l).value < 0x1_0000_0000
    {
      var tokens := PyText.Split(l);
      Isa.EncodedWordFits(tokens[0], ResolveAll(labels, tokens[1..]));
    }
  }

  lemma {:induction false} Pass2CodeFits(rd: Readers, s: Option<string>, ls: seq<string>, k: nat)
    requires CodeFits(rd) && k <= |ls| && SecondPass(rd, s, ls[..k]).Ok?
    ensures forall i :: 0 <= i < |SecondPass(rd, s, ls[..k]).value.out.code| ==>
      SecondPass(rd, s, ls[..k]).value.out.code[i] < 0x1_0000_0000
  {
    if k > 0 {
      SecondPassExtend(rd, s, ls, k - 1);
      Pass2CodeFits(rd, s, ls, k - 1);
      var st := SecondPass(rd, s, ls[..k - 1]).value;
      var l := ls[k - 1];
      if st.section == Some(".code") && IsInstructionText(l) {
        InstructionStep(rd, st, l);
      } else {
        StepGrows(rd, st, l);
        Pass2Tracks(rd, s, ls, k - 1);
        FirstPassExtend(s, ls, k - 1);
        StepsAgree(rd, st, FirstPassFrom(s, ls[..k - 1]), l);
      }
    }
  }

  /** Every word of `code` that `parse_assembly` returns fits in 32 bits,
      so `write_binary` never raises on the code section. */
  lemma AssembledCodeFits(lines: seq<string>)
    requires Assemble(lines).Ok?
    ensures forall i :: 0 <= i < |Assemble(lines).value.code| ==> Assemble(lines).value.code[i] < 0x1_0000_0000
  {
    var ls := CleanAll(lines);
    var sym := FirstPassFrom(None, ls);
    SourceReadersFit(sym.labels);
    assert ls[..|ls|] == ls;
    Pass2CodeFits(SourceReaders(sym.labels), sym.section, ls, |ls|);
  }

  // ------------------------------------------------------ the procedure

  /** Once pass 2 has raised, the later lines do not matter. */
  lemma {:induction false} ErrorStays(rd: Readers, s: Option<string>, ls: seq<string>, k: nat, m: nat)
    requires k <= m <= |ls| && SecondPass(rd, s, ls[..k]).Err?
    ensures SecondPass(rd, s, ls[..m]) == SecondPass(rd, s, ls[..k])
  {
    if m > k {
      ErrorStays(rd, s, ls, k, m - 1);
      assert ls[..m][..m - 1] == ls[..m - 1];
    }
  }

  /** The substitution loop of pass 2, rewriting the operands in place. */
  method SubstituteOperands(labels: map<string, nat>, args: seq<string>) returns (operands: seq<Isa.Operand>)
    ensures operands == ResolveAll(labels, args)
  {
    operands := seq(|args|, k requires 0 <= k < |args| => Isa.Token(args[k]));
    var i := 0;
    while i < |args|
      invariant 0 <= i <= |args| && |operands| == |args|
      invariant forall k :: 0 <= k < i ==> operands[k] == Resolve(labels, args[k])
      invariant forall k :: i <= k < |args| ==> operands[k] == Isa.Token(args[k])
    {
      if args[i] in RegisterNames {
        operands := operands[i := Isa.Num(RegisterNames[args[i]])];
      } else if args[i] in labels {
        operands := operands[i := Isa.Num(labels[args[i]])];
      }
      i := i + 1;
    }
  }

  /** `ParseLiterals` unrolled by one token. */
  lemma LiteralsExtend(tokens: seq<string>, k: nat)
    requires k < |tokens|
    ensures ParseLiterals(tokens[..k + 1]) ==
      (match ParseLiterals(tokens[..k])
       case Err(e) => Err(e)
       case Ok(front) =>
         (match PyText.ParseIntBase0(tokens[k])
          case Some(v) => Ok(front + [v])
          case None => Err(BadInteger(tokens[k]))))
  {
    assert tokens[..k + 1][..k] == tokens[..k];
  }

  /** Once a token is rejected, the later tokens do not matter. */
  lemma {:induction false} LiteralsErrorStays(tokens: seq<string>, k: nat, m: nat)
    requires k <= m <= |tokens| && ParseLiterals(tokens[..k]).Err?
    ensures ParseLiterals(tokens[..m]) == ParseLiterals(tokens[..k])
  {
    if m > k {
      LiteralsErrorStays(tokens, k, m - 1);
      LiteralsExtend(tokens, m - 1);
    }
  }

  /** The `for token in tokens` loop of a data section. */
  method ReadLiterals(tokens: seq<string>) returns (r: Result<seq<int>, AsmError>)
    ensures r == ParseLiterals(tokens)
  {
    var values: seq<int> := [];
    var i := 0;
    while i < |tokens|
      invariant 0 <= i <= |tokens|
      invariant ParseLiterals(tokens[..i]) == Ok(values)
    {
      LiteralsExtend(tokens, i);
      match PyText.ParseIntBase0(tokens[i])
      case None =>
        LiteralsErrorStays(tokens, i + 1, |tokens|);
        assert tokens[..|tokens|] == tokens;
        return Err(BadInteger(tokens[i]));
      case Some(v) =>
        values := values + [v];
      i := i + 1;
    }
    assert tokens[..i] == tokens;
    return Ok(values);
  }

  /** The body of pass 2's loop for one cleaned line. */
  method SecondPassLine(labels: map<string, nat>, st: Pass2, l: string) returns (r: Result<Pass2, AsmError>)
    ensures r == Pass2Step(SourceReaders(labels), st, l)
  {
    if l == [] {
      return Ok(st);
    }
    if l[0] == '.' {
      return Ok(st.(section := Some(l)));
    }
    if st.section == Some(".code") {
      if l[|l| - 1] == ':' {
        return Ok(st);
      }
      var tokens := PyText.Split(l);
      var op := tokens[0];
      var operands := SubstituteOperands(labels, tokens[1..]);
      match Isa.EncodeInstruction(op, operands)
      case Err(e) =>
        return Err(Encode(e));
      case Ok(w) =>
        return Ok(st.(out := st.out.(code := st.out.code + [w])));
    } else if st.section == Some(".row_index") {
      var vs := ReadLiterals(PyText.Split(l));
      if vs.Err? {
        return Err(vs.error);
      }
      return Ok(st.(out := st.out.(rowIndex := st.out.rowIndex + vs.value)));
    } else if st.section == Some(".col_index") {
      var vs := ReadLiterals(PyText.Split(l));
      if vs.Err? {
        return Err(vs.error);
      }
      return Ok(st.(out := st.out.(colIndex := st.out.colIndex + vs.value)));
    } else if st.section == Some(".values") {
      var vs := ReadLiterals(PyText.Split(l));
      if vs.Err? {
        return Err(vs.error);
      }
      return Ok(st.(out := st.out.(values := st.out.values + vs.value)));
    } else if st.section == Some(".mem") {
      match PyText.ParseIntBase0(l)
      case None =>
        return Err(BadInteger(l));
      case Some(v) =>
        return Ok(st.(out := st.out.(mem := st.out.mem + [v])));
    }
    return Ok(st);
  }

  /** The body of pass 1's loop for one cleaned line. */
  method FirstPassLine(section: Option<string>, pc: nat, labels: map<string, nat>, l: string)
    returns (section': Option<string>, pc': nat, labels': map<string, nat>)
    ensures Symbols(section', pc', labels') == Pass1Step(Symbols(section, pc, labels), l)
  {
    section', pc', labels' := section, pc, labels;
    if l == [] {
    } else if l[0] == '.' {
      section' := Some(l);
    } else if section == Some(".code") {
      if l[|l| - 1] == ':' {
        labels' := labels[l[..|l| - 1] := pc];
      } else {
        pc' := pc + 1;
      }
    }
  }

  /** The first loop of `parse_assembly`, over the cleaned lines: the
      section, program counter and label table after every line. */
  method CollectLabels(ls: seq<string>) returns (section: Option<string>, pc: nat, labels: map<string, nat>)
    ensures FirstPassFrom(None, ls) == Symbols(section, pc, labels)
  {
    section, pc, labels := None, 0, map[];
    var i := 0;
    while i < |ls|
      invariant 0 <= i <= |ls|
      invariant FirstPassFrom(None, ls[..i]) == Symbols(section, pc, labels)
    {
      FirstPassExtend(None, ls, i);
      section, pc, labels := FirstPassLine(section, pc, labels, ls[i]);
      i := i + 1;
    }
    assert ls[..i] == ls;
  }

  /** The second loop of `parse_assembly`, over the cleaned lines, entered
      in section `start`; it stops at the first line that raises. */
  method Emit(labels: map<string, nat>, start: Option<string>, ls: seq<string>) returns (r: Result<Pass2, AsmError>)
    ensures r == SecondPass(SourceReaders(labels), start, ls)
  {
    var st := Pass2(start, Assembly([], [], [], [], []));
    var i := 0;
    while i < |ls|
      invariant 0 <= i <= |ls|
      invariant SecondPass(SourceReaders(labels), start, ls[..i]) == Ok(st)
    {
      SecondPassExtend(SourceReaders(labels), start, ls, i);
      var next := SecondPassLine(labels, st, ls[i]);
      if next.Err? {
        ErrorStays(SourceReaders(labels), start, ls, i + 1, |ls|);
        assert ls[..|ls|] == ls;
        return next;
      }
      st := next.value;
      i := i + 1;
    }
    assert ls[..i] == ls;
    return Ok(st);
  }

  /** `parse_assembly(lines)`: every line has its comment and surrounding
      whitespace removed, pass 1 fills the label table, and pass 2, entered
      in the section pass 1 ended in, builds the output. */
  method ParseAssembly(lines: seq<string>) returns (r: Result<Assembly, AsmError>)
    ensures r == Assemble(lines)
  {
    var ls := CleanAll(lines);
    var section, pc, labels := CollectLabels(ls);
    var p := Emit(labels, section, ls);
    if p.Err? {
      return Err(p.error);
    }
    return Ok(p.value.out);
  }
}
