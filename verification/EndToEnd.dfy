/** From assembly text to the terminal: the whole tool chain in one statement. */
module EndToEnd {
  import opened Isa
  import opened Linker
  import opened Lexer
  import opened TokenText
  import opened Parser
  import opened FrontEnd
  import K = Kernel
  import KernelInvariant
  import Paging
  import Isolation
  import RunOutput
  import SymbolicMachine
  import Program = ProgramInKernel

  lemma {:induction false} MeaningAt(srcs: seq<Source>, k: nat)
    requires k < |srcs|
    ensures Meanings(srcs)[k] == Meaning(srcs[k])
    decreases |srcs|
  {
    hide Meaning;
    if k > 0 {
      MeaningAt(srcs[1..], k - 1);
    } else if |srcs| > 1 {
      MeaningAt(srcs[1..], 0);
    }
  }

  /** Every writable program has the form the linker proof relies on. */
  lemma WritableIsWellFormed(srcs: seq<Source>)
    requires AllWritable(srcs)
    ensures SymbolicMachine.WellFormed(Meanings(srcs))
  {
    hide IsName, Lexable, StringWords;
    var items := Meanings(srcs);
    forall i | 0 <= i < |items| && items[i].InstrI? && items[i].opi != MOV ensures items[i].operand.Name? {
      MeaningAt(srcs, i);
      assert Writable(srcs[i]);
    }
  }

  /** The characters of a string as words. */
  function Codes(text: Text): (ws: seq<Word>)
    ensures |ws| == |text| && forall i :: 0 <= i < |text| ==> ws[i] == CharWord(text[i])
  {
    seq(|text|, i requires 0 <= i < |text| => CharWord(text[i]))
  }

  predicate PlainText(text: Text) {
    forall i :: 0 <= i < |text| ==> 0 < text[i] as int < 128
  }

  lemma {:induction false} PlainWords(text: Text)
    requires PlainText(text)
    ensures StringWords(text) == Codes(text) + [0]
    decreases |text|
  {
    if text != [] {
      PlainWords(text[1..]);
      assert text[0] != '\0';
      assert Codes(text) == [CharWord(text[0])] + Codes(text[1..]);
    } else {
      assert Codes(text) == [];
    }
  }

  /** A string written with `.asciiz` behind a label, in a program of any layout, assembled and loaded
      while there is room: whenever the process prints the label, in any run of the kernel in which
      it has spared the string, the string appears on the terminal character by character. */
  lemma TextToTerminal(srcs: seq<Source>, gaps: seq<Gap>, name: Text, k: nat, s: K.State, es: seq<K.Event>, time: Word)
    requires AllWritable(srcs) && |gaps| == |ProgramTokens(srcs)| + 1 && Apart(ProgramTokens(srcs), gaps)
    requires k < |srcs| && srcs[k].AsciizBlock? && PlainText(srcs[k].text) && Program.Names(Meanings(srcs), name, k)
    requires AddressOf(Meanings(srcs), |srcs|) <= 0x1_0000
    requires Assemble(Layout(ProgramTokens(srcs), gaps)).Object? && KernelInvariant.Inv(s)
    requires var image := Assemble(Layout(ProgramTokens(srcs), gaps)).image;
             K.Enabled(s, K.LoadCommand(image, false)) && Program.Room(s, image)
    requires var image := Assemble(Layout(ProgramTokens(srcs), gaps)).image;
             Program.PrintsLabel(K.LoadProgram(s, image, false), s.nextAddr, es, time,
                                 LabelAddress(Meanings(srcs), name), |srcs[k].text|)
    ensures var image := Assemble(Layout(ProgramTokens(srcs), gaps)).image;
            var t := K.Run(K.LoadProgram(s, image, false), es);
            var r := K.Step(t, K.CpuCycle(time));
            r.out == t.out + Codes(srcs[k].text) && r.on && s.nextAddr in r.procs
  {
    hide Layout, ProgramTokens, Apart, AllWritable, Meanings, AddressOf, Link, Assemble, KernelInvariant.Inv,
      Program.Room, Program.PrintsLabel, Program.Names, K.LoadProgram, K.Run, K.Step, K.Enabled, StringWords, Codes,
      Image;
    AssembledAsWritten(srcs, gaps);
    var items, text := Meanings(srcs), srcs[k].text;
    LinkedImage(items);
    MeaningAt(srcs, k);
    PlainWords(text);
    CodesPrintable(text);
    Program.StringFromLoad(items, name, k, Codes(text), s, es, time);
  }

  lemma CodesPrintable(text: Text)
    requires PlainText(text)
    ensures Program.Printable(Codes(text))
  {
  }

  lemma LinkedImage(items: seq<Item>)
    ensures Link(items).Binary? ==> Link(items) == Binary(Image(items))
  {
    hide Image;
  }

  /** What the text of a program says is what its process does: assembled from any layout, in the
      memory of a process scheduled among others, it runs as the symbolic program. */
  lemma TextRunsAsWritten(srcs: seq<Source>, gaps: seq<Gap>, s: K.State, a: Paging.Addr, es: seq<K.Event>,
                          time: Word, times: seq<Word>)
    requires AllWritable(srcs) && |gaps| == |ProgramTokens(srcs)| + 1 && Apart(ProgramTokens(srcs), gaps)
    requires SymbolicMachine.Encodable(Meanings(srcs))
    requires Assemble(Layout(ProgramTokens(srcs), gaps)).Object?
    requires KernelInvariant.Inv(s) && Program.Fresh(s, a, Assemble(Layout(ProgramTokens(srcs), gaps)).image)
    requires K.Possible(s, es) && a in K.Run(s, es).procs
    requires Isolation.OwnTimes(s, es, a) == [time] + times
    requires SymbolicMachine.Harmless(Meanings(srcs),
               SymbolicMachine.Start(Meanings(srcs), Isolation.PrivateOf(s, a)), times)
    ensures Isolation.PrivateOf(K.Run(s, es), a) ==
            SymbolicMachine.Concrete(Meanings(srcs), SymbolicMachine.SymbolicRun(Meanings(srcs),
              SymbolicMachine.Start(Meanings(srcs), Isolation.PrivateOf(s, a)), times))
  {
    hide *;
    AssembledAsWritten(srcs, gaps);
    LinkedImage(Meanings(srcs));
    WritableIsWellFormed(srcs);
    Program.ProgramRunsAsWritten(Meanings(srcs), s, a, es, time, times);
  }

  /** And what the text says it prints is what appears on the terminal in its process's name. */
  lemma TextPrintsAsWritten(srcs: seq<Source>, gaps: seq<Gap>, s: K.State, a: Paging.Addr, es: seq<K.Event>,
                            time: Word, times: seq<Word>)
    requires AllWritable(srcs) && |gaps| == |ProgramTokens(srcs)| + 1 && Apart(ProgramTokens(srcs), gaps)
    requires SymbolicMachine.Encodable(Meanings(srcs))
    requires Assemble(Layout(ProgramTokens(srcs), gaps)).Object?
    requires KernelInvariant.Inv(s) && Program.Fresh(s, a, Assemble(Layout(ProgramTokens(srcs), gaps)).image)
    requires K.Possible(s, es) && Isolation.OwnTimes(s, es, a) == [time] + times
    requires SymbolicMachine.Harmless(Meanings(srcs),
               SymbolicMachine.Start(Meanings(srcs), Isolation.PrivateOf(s, a)), times)
    ensures RunOutput.TextOf(RunOutput.Prints(s, es), a) ==
            RunOutput.SymbolicOutput(Meanings(srcs),
              SymbolicMachine.Start(Meanings(srcs), Isolation.PrivateOf(s, a)), times)
    ensures K.Run(s, es).out == s.out + RunOutput.AllText(RunOutput.Prints(s, es))
  {
    hide *;
    AssembledAsWritten(srcs, gaps);
    LinkedImage(Meanings(srcs));
    WritableIsWellFormed(srcs);
    RunOutput.ProgramPrintsAsWritten(Meanings(srcs), s, a, es, time, times);
    RunOutput.RunShows(s, es);
  }
}
