/** The string printer on any bytes: two characters a word, and what becomes of those beyond ASCII. */
module PrintedBytes {
  import opened Isa
  import opened Paging
  import opened Kernel
  import opened KernelInvariant
  import opened Isolation
  import opened Survival
  import opened SystemCalls
  import opened Parser

  /** A byte as the terminal gets it: those from 128 on are negative characters, widened. */
  function Wide(b: nat): Word
    requires b < 256
  {
    if b < 128 then b else b + 65280
  }

  /** The characters of one word: the low byte, and the high one if it is not zero. */
  function Pair(w: Word): seq<Word> {
    if w < 256 then [Wide(w)] else [Wide(w % 256), Wide(w / 256)]
  }

  function Shown(ws: seq<Word>): seq<Word> {
    if ws == [] then [] else Pair(ws[0]) + Shown(ws[1..])
  }

  /** The words stand at vaddr and behind. */
  ghost predicate Stands(pages: map<nat, seq<Word>>, vaddr: nat, ws: seq<Word>)
    requires PagesOk(pages)
  {
    forall i :: 0 <= i < |ws| ==> StandsAt(pages, vaddr + i, ws[i])
  }

  ghost predicate StandsAt(pages: map<nat, seq<Word>>, vaddr: nat, w: Word)
    requires PagesOk(pages)
  {
    vaddr < 65536 && vaddr / 16 in pages && pages[vaddr / 16][vaddr % 16] == w
  }

  /** No word but the last has a zero low byte. */
  ghost predicate Ends(ws: seq<Word>) {
    ws != [] && ws[|ws| - 1] % 256 == 0 && forall i :: 0 <= i < |ws| - 1 ==> ws[i] % 256 != 0
  }

  lemma WordTextIsPair(w: Word)
    ensures WordText(w) == Pair(w)
  {
  }

  lemma EndsRest(ws: seq<Word>)
    requires Ends(ws)
    ensures ws != [] && (|ws| == 1 ==> ws[0] % 256 == 0) && (|ws| > 1 ==> ws[0] % 256 != 0 && Ends(ws[1..]))
  {
  }

  lemma FirstStands(pages: map<nat, seq<Word>>, vaddr: Word, ws: seq<Word>)
    requires PagesOk(pages) && Stands(pages, vaddr, ws) && ws != []
    ensures Page(vaddr) in pages && WordAt(pages, vaddr) == ws[0]
  {
    assert StandsAt(pages, vaddr + 0, ws[0]);
  }

  /** The printer shows all words before the first with a zero low byte. */
  lemma {:induction false} WalkWords(pages: map<nat, seq<Word>>, vaddr: Word, ws: seq<Word>, n: nat)
    requires PagesOk(pages) && Stands(pages, vaddr, ws) && Ends(ws) && n >= |ws|
    ensures PrivateWalk(pages, vaddr, n) == Walk(Shown(ws[..|ws| - 1]), Terminated)
    decreases n
  {
    hide WordText, Pair, Stands, Ends, WordAt, Wrap;
    EndsRest(ws);
    FirstStands(pages, vaddr, ws);
    if |ws| > 1 {
      WordTextIsPair(ws[0]);
      StandsRest(pages, vaddr, ws);
      WalkWords(pages, Wrap(vaddr + 1), ws[1..], n - 1);
      assert ws[..|ws| - 1][1..] == ws[1..][..|ws[1..]| - 1];
    } else {
      assert ws[..0] == [];
    }
  }

  /** The print call, for any words: exactly they are shown, and the process and the machine go on. */
  lemma PrintWords(s: State, m: Private, time: Word, ws: seq<Word>)
    requires Calls(s, m, time, 1) && PagesOk(m.pages) && Stands(m.pages, m.gprs[1], ws) && Ends(ws)
    ensures Enabled(s, CpuCycle(time))
    ensures var r := Step(s, CpuCycle(time));
            r.out == s.out + Shown(ws[..|ws| - 1]) && r.on && r.procs.Keys == s.procs.Keys
  {
    assert ws != [];
    hide Inv, Step, Linked, Enabled, PrivateCycle, Calls, PrivateOf, Stands, Ends, Shown, PrivateWalk, FreeFrame;
    CallState(s, m, time, 1);
    ShortEnough(m.pages, m.gprs[1], ws);
    WalkWords(m.pages, m.gprs[1], ws, WALK);
    CallPrints(s, m, time, 1);
    StepStaysOn(s, CpuCycle(time));
    forall a | a in s.procs ensures a in Step(s, CpuCycle(time)).procs {
      StepSurvivors(s, CpuCycle(time), a);
    }
  }

  lemma ShortEnough(pages: map<nat, seq<Word>>, vaddr: nat, ws: seq<Word>)
    requires PagesOk(pages) && Stands(pages, vaddr, ws) && ws != []
    ensures |ws| <= WALK
  {
    assert StandsAt(pages, vaddr + (|ws| - 1), ws[|ws| - 1]);
  }

  lemma StandsRest(pages: map<nat, seq<Word>>, vaddr: Word, ws: seq<Word>)
    requires PagesOk(pages) && Stands(pages, vaddr, ws) && ws != []
    ensures Stands(pages, Wrap(vaddr + 1), ws[1..]) && (|ws| > 1 ==> vaddr + 1 < 65536)
  {
    hide StandsAt;
    if |ws| > 1 {
      assert vaddr + 1 < 65536 by {
        assert StandsAt(pages, vaddr + 1, ws[1]);
        Below(pages, vaddr + 1, ws[1]);
      }
      forall i | 0 <= i < |ws[1..]| ensures StandsAt(pages, Wrap(vaddr + 1) + i, ws[1..][i]) {
        assert StandsAt(pages, vaddr + (i + 1), ws[i + 1]);
      }
    }
  }

  lemma Below(pages: map<nat, seq<Word>>, vaddr: nat, w: Word)
    requires PagesOk(pages) && StandsAt(pages, vaddr, w)
    ensures vaddr < 65536
  {
  }

  lemma WrapsOn(vaddr: Word, n: nat)
    requires n > 0
    ensures (Wrap(vaddr + 1) + (n - 1)) % 65536 == (vaddr + n) % 65536
  {
  }

  /** A string that runs into a missing page: what comes before it is shown. */
  lemma {:induction false} WalkBroken(pages: map<nat, seq<Word>>, vaddr: Word, ws: seq<Word>, n: nat)
    requires PagesOk(pages) && Stands(pages, vaddr, ws) && n > |ws|
    requires forall i :: 0 <= i < |ws| ==> ws[i] % 256 != 0
    requires (vaddr + |ws|) % 65536 / 16 !in pages
    ensures PrivateWalk(pages, vaddr, n) == Walk(Shown(ws), BadAddress)
    decreases n
  {
    hide WordText, Pair, Stands, WordAt, Wrap;
    if ws != [] {
      WordTextIsPair(ws[0]);
      FirstStands(pages, vaddr, ws);
      StandsRest(pages, vaddr, ws);
      WrapsOn(vaddr, |ws|);
      WalkBroken(pages, Wrap(vaddr + 1), ws[1..], n - 1);
    }
  }

  /** The print call on a string that runs into a missing page: the part before is shown, and a user
      process is then destroyed. */
  lemma PrintBroken(s: State, m: Private, time: Word, ws: seq<Word>)
    requires Calls(s, m, time, 1) && PagesOk(m.pages) && Stands(m.pages, m.gprs[1], ws) && |ws| < 65536
    requires forall i :: 0 <= i < |ws| ==> ws[i] % 256 != 0
    requires (m.gprs[1] + |ws|) % 65536 / 16 !in m.pages
    requires s.mmu in s.procs && s.mmu != s.idle && s.procs[s.mmu].id != 0
    ensures Enabled(s, CpuCycle(time))
    ensures var r := Step(s, CpuCycle(time));
            r.out == s.out + Shown(ws) && r.on && r.procs.Keys == s.procs.Keys - {s.mmu}
  {
    hide Inv, Step, Linked, Enabled, PrivateCycle, Calls, PrivateOf, Stands, Shown, PrivateWalk, FreeFrame;
    CallState(s, m, time, 1);
    WalkBroken(m.pages, m.gprs[1], ws, WALK);
    CallPrints(s, m, time, 1);
    StepStaysOn(s, CpuCycle(time));
    forall a | a in s.procs ensures a in Step(s, CpuCycle(time)).procs <==> a != s.mmu {
      StepSurvivors(s, CpuCycle(time), a);
    }
  }

  // ---------- packed bytes ----------

  ghost predicate Bytes(bytes: seq<nat>) {
    forall i :: 0 <= i < |bytes| ==> 0 < bytes[i] < 256
  }

  /** Two bytes a word, the first one low. */
  ghost function Packed(bytes: seq<nat>): seq<Word>
    requires Bytes(bytes)
  {
    if bytes == [] then []
    else if |bytes| == 1 then [bytes[0]]
    else [bytes[0] + 256 * bytes[1]] + Packed(bytes[2..])
  }

  lemma {:induction false} PackedShown(bytes: seq<nat>)
    requires Bytes(bytes)
    ensures var t := Shown(Packed(bytes));
            && |t| == |bytes|
            && forall i :: 0 <= i < |bytes| ==> t[i] as int == if bytes[i] < 128 then bytes[i] else bytes[i] + 65280
    ensures Ends(Packed(bytes) + [0])
    decreases |bytes|
  {
    if |bytes| == 1 {
      assert Packed(bytes)[1..] == [];
    } else if |bytes| > 1 {
      PackedShown(bytes[2..]);
      var ws := Packed(bytes);
      assert ws[1..] == Packed(bytes[2..]);
      assert ws[0] % 256 == bytes[0] && ws[0] / 256 == bytes[1];
      var all, rest := ws + [0], Packed(bytes[2..]) + [0];
      assert forall i :: 1 <= i < |all| ==> all[i] == rest[i - 1];
    }
  }

  /** Any bytes but zero, packed two a word and ended by a zero word, come out one character each. */
  lemma BytesPrinted(s: State, m: Private, time: Word, bytes: seq<nat>) returns (text: seq<Word>)
    requires Bytes(bytes) && Calls(s, m, time, 1) && PagesOk(m.pages) && Stands(m.pages, m.gprs[1], Packed(bytes) + [0])
    ensures Enabled(s, CpuCycle(time))
    ensures var r := Step(s, CpuCycle(time)); r.out == s.out + text && r.on && r.procs.Keys == s.procs.Keys
    ensures |text| == |bytes|
    ensures forall i :: 0 <= i < |bytes| ==> text[i] as int == if bytes[i] < 128 then bytes[i] else bytes[i] + 65280
  {
    hide Calls, Stands, Ends, Step, Enabled, Packed, Shown;
    PackedShown(bytes);
    var ws := Packed(bytes);
    assert (ws + [0])[..|ws + [0]| - 1] == ws;
    PrintWords(s, m, time, ws + [0]);
    text := Shown(Packed(bytes));
  }

  // ---------- strings of the assembler ----------

  /** The words of `.asciiz`: one for each character, those beyond ASCII as negative characters, and a
      zero. */
  lemma {:induction false} AsciizWords(text: Lexer.Text)
    requires '\0' !in text
    ensures var ws := StringWords(text);
            && |ws| == |text| + 1 && ws[|text|] == 0
            && forall i :: 0 <= i < |text| ==>
                 ws[i] as int == if text[i] as int < 128 then text[i] as int else text[i] as int + 65280
    decreases |text|
  {
    if text != [] {
      AsciizWords(text[1..]);
    }
  }

  /** What the printer makes of a string of the assembler, exactly: it comes out as written if and only if
      it is plain ASCII. */
  lemma AsciizShownExactly(text: Lexer.Text)
    requires '\0' !in text
    ensures var ws := StringWords(text);
            && |ws| == |text| + 1
            && (Shown(ws[..|text|]) == ws[..|text|] <==> forall i :: 0 <= i < |text| ==> text[i] as int < 128)
  {
    hide StringWords, Shown;
    AsciizWords(text);
    var ws := StringWords(text)[..|text|];
    LongerUnlessPlain(ws);
  }

  lemma {:induction false} LongerUnlessPlain(ws: seq<Word>)
    requires forall i :: 0 <= i < |ws| ==> 0 < ws[i] < 128 || 65280 + 128 <= ws[i]
    ensures |Shown(ws)| >= |ws| && (|Shown(ws)| == |ws| <==> forall i :: 0 <= i < |ws| ==> ws[i] < 128)
    ensures (forall i :: 0 <= i < |ws| ==> ws[i] < 128) ==> Shown(ws) == ws
    decreases |ws|
  {
    if ws != [] {
      LongerUnlessPlain(ws[1..]);
      assert ws == [ws[0]] + ws[1..];
    }
  }

  /** The character 233 in a string comes out as two characters, 65513 and 65535. */
  lemma AccentPrinted()
    ensures StringWords([233 as char]) == [65513, 0] && Shown([65513]) == [65513, 65535]
  {
    AsciizWords([233 as char]);
    assert [65513][1..] == [];
  }
}
