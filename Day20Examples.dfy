/** The parsing and sending unit tests of `src/bin/20.rs`. */
module Day20Examples {
  import opened Wrappers
  import opened Text
  import opened Day20

  const AA := Other('a', 'a')
  const BB := Other('b', 'b')
  const CC := Other('c', 'c')
  const DD := Other('d', 'd')
  const IV := Other('i', 'v')
  const CN := Other('c', 'n')
  const OP := Other('o', 'p')

  /** The five lines of `test_system_from_str`. */
  const SYSTEM_LINES: seq<String> := ["broadcaster -> aa", "%aa -> iv, cn", "&iv -> bb", "%bb -> cn", "&cn -> op"]

  /** The modules those lines describe, before the second pass gives the conjunctions their
      inputs. */
  const SYSTEM_MODULES: seq<Module> := [
    Module(Broadcaster, BroadcastModule, [AA]),
    Module(AA, FlipFlop, [IV, CN]),
    Module(IV, Conjunction({}), [BB]),
    Module(BB, FlipFlop, [CN]),
    Module(CN, Conjunction({}), [OP])]

  /** `example_system`: the system the test expects. */
  const EXAMPLE_SYSTEM: System := map[
    Broadcaster := Module(Broadcaster, BroadcastModule, [AA]),
    AA := Module(AA, FlipFlop, [IV, CN]),
    IV := Module(IV, Conjunction({AA}), [BB]),
    BB := Module(BB, FlipFlop, [CN]),
    CN := Module(CN, Conjunction({AA, BB}), [OP])]

  /** `test_module_name_from_str`. */
  lemma ModuleNameExamples()
    ensures ParseModuleName("broadcaster") == Ok(Broadcaster)
    ensures ParseModuleName("xy") == Ok(Other('x', 'y'))
    ensures ParseModuleName("op") == Ok(Other('o', 'p'))
  {
  }

  /** `test_module_from_str`, first case: a flip-flop with one destination. */
  lemma FlipFlopLineExample()
    ensures ParseModule("%aa -> bb") == Ok(Module(AA, FlipFlop, [BB]))
  {
    var m := Module(AA, FlipFlop, [BB]);
    assert NameTexts([BB]) == ["bb"];
    assert ModuleText(m) == "%aa -> bb";
    ParseModuleRoundTrip(m);
  }

  /** `test_module_from_str`, second case: a conjunction starts with no inputs. */
  lemma ConjunctionLineExample()
    ensures ParseModule("&bb -> cc, dd") == Ok(Module(BB, Conjunction({}), [CC, DD]))
  {
    var m := Module(BB, Conjunction({}), [CC, DD]);
    var texts := NameTexts([CC, DD]);
    assert texts == ["cc", "dd"];
    assert texts[1..] == ["dd"];
    assert Join(texts, ", ") == "cc, dd";
    assert ModuleText(m) == "&bb -> cc, dd";
    ParseModuleRoundTrip(m);
  }

  /** `test_module_from_str`, third case: the broadcaster with three destinations. */
  lemma BroadcasterLineExample()
    ensures ParseModule("broadcaster -> aa, bb, cc") == Ok(Module(Broadcaster, BroadcastModule, [AA, BB, CC]))
  {
    var m := Module(Broadcaster, BroadcastModule, [AA, BB, CC]);
    var texts := NameTexts([AA, BB, CC]);
    assert texts == ["aa", "bb", "cc"];
    JoinThree("aa", "bb", "cc", ", ");
    assert ModuleText(m) == "broadcaster -> aa, bb, cc";
    ParseModuleRoundTrip(m);
  }

  /** `test_module_send_signals`: a High pulse from a module with two destinations queues
      one High signal for each. */
  lemma SendSignalsExample()
    ensures var r := Sent(Module(Broadcaster, BroadcastModule, [AA, Other('x', 'y')]), High, QUIET);
      |r.signals| == 2 && Signal(High, AA) in r.signals && Signal(High, Other('x', 'y')) in r.signals
  {
    var destinations := [AA, Other('x', 'y')];
    FanoutSignals(destinations, High);
    var fanout := Fanout(destinations, High);
    assert Sent(Module(Broadcaster, BroadcastModule, destinations), High, QUIET).signals == fanout;
    assert fanout[0] == Signal(High, AA);
    assert fanout[1] == Signal(High, Other('x', 'y'));
  }

  /** A line with one destination parses to its module. */
  lemma OneTargetLine(m: Module, line: String)
    requires Printable(m) && |m.destinations| == 1
    requires line == ModuleText(m)
    ensures ParseModule(line) == Ok(m)
  {
    ParseModuleRoundTrip(m);
  }

  /** The lines of `test_system_from_str`, one by one. */
  lemma SystemLineZero()
    ensures ParseModule("broadcaster -> aa") == Ok(Module(Broadcaster, BroadcastModule, [AA]))
  {
    assert NameTexts([AA]) == ["aa"];
    OneTargetLine(Module(Broadcaster, BroadcastModule, [AA]), "broadcaster -> aa");
  }

  lemma SystemLineOne()
    ensures ParseModule("%aa -> iv, cn") == Ok(Module(AA, FlipFlop, [IV, CN]))
  {
    var m := Module(AA, FlipFlop, [IV, CN]);
    var texts := NameTexts([IV, CN]);
    assert texts == ["iv", "cn"];
    assert texts[1..] == ["cn"];
    assert Join(texts, ", ") == "iv, cn";
    assert ModuleText(m) == "%aa -> iv, cn";
    ParseModuleRoundTrip(m);
  }

  lemma SystemLineTwo()
    ensures ParseModule("&iv -> bb") == Ok(Module(IV, Conjunction({}), [BB]))
  {
    assert NameTexts([BB]) == ["bb"];
    OneTargetLine(Module(IV, Conjunction({}), [BB]), "&iv -> bb");
  }

  lemma SystemLineThree()
    ensures ParseModule("%bb -> cn") == Ok(Module(BB, FlipFlop, [CN]))
  {
    assert NameTexts([CN]) == ["cn"];
    OneTargetLine(Module(BB, FlipFlop, [CN]), "%bb -> cn");
  }

  lemma SystemLineFour()
    ensures ParseModule("&cn -> op") == Ok(Module(CN, Conjunction({}), [OP]))
  {
    assert NameTexts([OP]) == ["op"];
    OneTargetLine(Module(CN, Conjunction({}), [OP]), "&cn -> op");
  }

  /** Each line of the test parses to its module. */
  lemma SystemLinesParse(lines: seq<String>, modules: seq<Module>)
    requires lines == SYSTEM_LINES && modules == SYSTEM_MODULES
    ensures ParseEach(ParseModule, lines) == Ok(modules)
  {
    forall i | 0 <= i < 5 ensures ParseModule(lines[i]) == Ok(modules[i]) {
      if i == 0 {
        SystemLineZero();
      } else if i == 1 {
        SystemLineOne();
      } else if i == 2 {
        SystemLineTwo();
      } else if i == 3 {
        SystemLineThree();
      } else {
        SystemLineFour();
      }
    }
    ParseEachAll(ParseModule, lines, modules);
  }

  /** The test's text, line by line. */
  lemma SystemText()
    ensures Lines("broadcaster -> aa\n%aa -> iv, cn\n&iv -> bb\n%bb -> cn\n&cn -> op") == SYSTEM_LINES
  {
    SystemJoin(SYSTEM_LINES);
    SystemLinesPlain(SYSTEM_LINES);
    LinesJoin(SYSTEM_LINES);
  }

  /** No line of the test holds a line feed or ends in a carriage return. */
  lemma SystemLinesPlain(l: seq<String>)
    requires l == SYSTEM_LINES
    ensures |l| > 0 && l[|l| - 1] != []
    ensures forall k :: 0 <= k < |l| ==> '\n' !in l[k]
    ensures forall k :: 0 <= k < |l| ==> StripCarriageReturn(l[k]) == l[k]
  {
  }

  /** The lines joined with line feeds are the test's text. */
  lemma SystemJoin(l: seq<String>)
    requires l == SYSTEM_LINES
    ensures Join(l, "\n") == "broadcaster -> aa\n%aa -> iv, cn\n&iv -> bb\n%bb -> cn\n&cn -> op"
  {
    assert l[1..] == [l[1], l[2], l[3], l[4]];
    JoinFour(l[1], l[2], l[3], l[4], "\n");
    SystemConcat(l[0], l[1], l[2], l[3], l[4]);
  }

  /** The five lines with line feeds between them, as one literal. */
  lemma SystemConcat(a: String, b: String, c: String, d: String, e: String)
    requires [a, b, c, d, e] == SYSTEM_LINES
    ensures a + "\n" + (b + "\n" + c + "\n" + d + "\n" + e) == "broadcaster -> aa\n%aa -> iv, cn\n&iv -> bb\n%bb -> cn\n&cn -> op"
  {
    assert a + "\n" + (b + "\n" + c + "\n" + d + "\n" + e) == a + "\n" + b + "\n" + c + "\n" + d + "\n" + e;
    assert "broadcaster -> aa" + "\n" == "broadcaster -> aa\n";
    assert "broadcaster -> aa\n" + "%aa -> iv, cn" == "broadcaster -> aa\n%aa -> iv, cn";
    assert "broadcaster -> aa\n%aa -> iv, cn" + "\n" == "broadcaster -> aa\n%aa -> iv, cn\n";
    assert "broadcaster -> aa\n%aa -> iv, cn\n" + "&iv -> bb" == "broadcaster -> aa\n%aa -> iv, cn\n&iv -> bb";
    assert "broadcaster -> aa\n%aa -> iv, cn\n&iv -> bb" + "\n" == "broadcaster -> aa\n%aa -> iv, cn\n&iv -> bb\n";
    assert "broadcaster -> aa\n%aa -> iv, cn\n&iv -> bb\n" + "%bb -> cn" == "broadcaster -> aa\n%aa -> iv, cn\n&iv -> bb\n%bb -> cn";
    assert "broadcaster -> aa\n%aa -> iv, cn\n&iv -> bb\n%bb -> cn" + "\n" == "broadcaster -> aa\n%aa -> iv, cn\n&iv -> bb\n%bb -> cn\n";
    assert "broadcaster -> aa\n%aa -> iv, cn\n&iv -> bb\n%bb -> cn\n" + "&cn -> op" == "broadcaster -> aa\n%aa -> iv, cn\n&iv -> bb\n%bb -> cn\n&cn -> op";
  }

  /** The first pass keys the five modules by name. */
  lemma SystemDeclared()
    ensures Declared(SYSTEM_MODULES) == map[
      Broadcaster := SYSTEM_MODULES[0], AA := SYSTEM_MODULES[1], IV := SYSTEM_MODULES[2],
      BB := SYSTEM_MODULES[3], CN := SYSTEM_MODULES[4]]
  {
    var ms := SYSTEM_MODULES;
    DeclaredAppend([], ms[0]);
    DeclaredAppend(ms[..1], ms[1]);
    DeclaredAppend(ms[..2], ms[2]);
    DeclaredAppend(ms[..3], ms[3]);
    DeclaredAppend(ms[..4], ms[4]);
    assert [] + [ms[0]] == ms[..1] && ms[..1] + [ms[1]] == ms[..2] && ms[..2] + [ms[2]] == ms[..3];
    assert ms[..3] + [ms[3]] == ms[..4] && ms[..4] + [ms[4]] == ms;
  }

  /** The declared modules that send to `iv` and to `cn`. */
  lemma SystemSenders(declared: System)
    requires declared == map[
      Broadcaster := SYSTEM_MODULES[0], AA := SYSTEM_MODULES[1], IV := SYSTEM_MODULES[2],
      BB := SYSTEM_MODULES[3], CN := SYSTEM_MODULES[4]]
    ensures Senders(declared, IV) == {AA} && Senders(declared, CN) == {AA, BB}
  {
    assert declared[AA].name == AA && IV in declared[AA].destinations && CN in declared[AA].destinations;
    assert declared[BB].name == BB && CN in declared[BB].destinations;
  }

  /** The second pass over the declared modules. */
  lemma SystemConnected(declared: System)
    requires declared == map[
      Broadcaster := SYSTEM_MODULES[0], AA := SYSTEM_MODULES[1], IV := SYSTEM_MODULES[2],
      BB := SYSTEM_MODULES[3], CN := SYSTEM_MODULES[4]]
    ensures Connected(declared) == EXAMPLE_SYSTEM
  {
    SystemSenders(declared);
    forall n | n in declared ensures EXAMPLE_SYSTEM[n] == AddInputs(declared[n], Senders(declared, n)) {
      if n == IV {
        assert {} + {AA} == {AA};
      } else if n == CN {
        assert {} + {AA, BB} == {AA, BB};
      }
    }
    ConnectDone(declared, EXAMPLE_SYSTEM);
  }

  /** `test_system_from_str`: the second pass gives `iv` the input `aa` and `cn` the inputs
      `aa` and `bb`. */
  lemma SystemExample()
    ensures ParsedSystem("broadcaster -> aa\n%aa -> iv, cn\n&iv -> bb\n%bb -> cn\n&cn -> op") == Ok(EXAMPLE_SYSTEM)
  {
    SystemText();
    SystemLinesParse(SYSTEM_LINES, SYSTEM_MODULES);
    SystemDeclared();
    SystemConnected(Declared(SYSTEM_MODULES));
  }
}
