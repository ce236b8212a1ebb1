/** The rank-one constraint system front end: a program text such as
    `v = x * x; z = v + y;` is cut into statements, each statement of the
    form `output = left operator right` adds one constraint and up to three
    variables, and `prove` lays out a witness vector. */
module R1cs {

  /** The values of an `i32`. */
  type I32 = x: int | -0x8000_0000 <= x < 0x8000_0000

  // ---------------------------------------------------------------------
  // The string operations the parser relies on

  /** `str::split` with a one-character pattern: the pieces between the
      separators, empty pieces included, so there is always one more piece
      than there are separators. */
  function Split(s: string, sep: char): (r: seq<string>)
    ensures |r| >= 1
    decreases |s|
  {
    if |s| == 0 then [""]
    else
      var rest := Split(s[1..], sep);
      if s[0] == sep then [""] + rest
      else [[s[0]] + rest[0]] + rest[1..]
  }

  /** The pieces put back together with the separator between them. */
  function Join(pieces: seq<string>, sep: char): string
    requires |pieces| >= 1
    decreases |pieces|
  {
    if |pieces| == 1 then pieces[0] else pieces[0] + [sep] + Join(pieces[1..], sep)
  }

  /** How often `c` occurs in `s`. */
  function Count(s: string, c: char): nat
    decreases |s|
  {
    if |s| == 0 then 0 else (if s[0] == c then 1 else 0) + Count(s[1..], c)
  }

  /** Joining the pieces gives back the text. */
  lemma {:induction false} SplitJoin(s: string, sep: char)
    ensures Join(Split(s, sep), sep) == s
    decreases |s|
  {
    if |s| > 0 {
      var rest := Split(s[1..], sep);
      SplitJoin(s[1..], sep);
      if s[0] == sep {
        assert s == [sep] + s[1..];
      } else if |rest| == 1 {
        assert s == [s[0]] + s[1..];
      } else {
        assert s == [s[0]] + s[1..];
        assert Join(rest, sep) == rest[0] + [sep] + Join(rest[1..], sep);
      }
    }
  }

  /** No piece holds the separator, and there is one piece more than there
      are separators. */
  lemma {:induction false} SplitPieces(s: string, sep: char)
    ensures forall i :: 0 <= i < |Split(s, sep)| ==> sep !in Split(s, sep)[i]
    ensures |Split(s, sep)| == Count(s, sep) + 1
    decreases |s|
  {
    if |s| > 0 {
      SplitPieces(s[1..], sep);
    }
  }

  /** Splitting at a first separator. */
  lemma {:induction false} SplitFirst(a: string, b: string, sep: char)
    requires sep !in a
    ensures Split(a + [sep] + b, sep) == [a] + Split(b, sep)
    decreases |a|
  {
    if |a| == 0 {
      assert [sep] + b == a + [sep] + b;
      assert ([sep] + b)[1..] == b;
    } else {
      SplitFirst(a[1..], b, sep);
      assert (a + [sep] + b)[1..] == a[1..] + [sep] + b;
      assert [a[0]] + a[1..] == a;
    }
  }

  /** A text without the separator is one piece. */
  lemma {:induction false} SplitNone(a: string, sep: char)
    requires sep !in a
    ensures Split(a, sep) == [a]
    decreases |a|
  {
    if |a| > 0 {
      SplitNone(a[1..], sep);
      assert [a[0]] + a[1..] == a;
    }
  }

  /** Splitting a join of separator-free pieces gives the pieces back. */
  lemma {:induction false} JoinSplit(pieces: seq<string>, sep: char)
    requires |pieces| >= 1
    requires forall i :: 0 <= i < |pieces| ==> sep !in pieces[i]
    ensures Split(Join(pieces, sep), sep) == pieces
    decreases |pieces|
  {
    if |pieces| == 1 {
      SplitNone(pieces[0], sep);
    } else {
      var rest := pieces[1..];
      assert forall i :: 0 <= i < |rest| ==> sep !in rest[i] by {
        forall i | 0 <= i < |rest|
          ensures sep !in rest[i]
        {
          assert rest[i] == pieces[i + 1];
        }
      }
      JoinSplit(rest, sep);
      assert sep !in pieces[0];
      SplitFirst(pieces[0], Join(rest, sep), sep);
      assert pieces == [pieces[0]] + rest;
    }
  }

  /** `char::is_whitespace`: the characters with Unicode's White_Space
      property. */
  predicate IsWhitespace(c: char)
  {
    '\t' <= c <= '\r' || c == ' ' || c == '\U{0085}' || c == '\U{00A0}' || c == '\U{1680}'
    || '\U{2000}' <= c <= '\U{200A}' || c == '\U{2028}' || c == '\U{2029}' || c == '\U{202F}'
    || c == '\U{205F}' || c == '\U{3000}'
  }

  /** `str::trim_start`: the text after its leading white space. */
  function TrimStart(s: string): string
    decreases |s|
  {
    if |s| > 0 && IsWhitespace(s[0]) then TrimStart(s[1..]) else s
  }

  /** `str::trim_end`: the text before its trailing white space. */
  function TrimEnd(s: string): string
    decreases |s|
  {
    if |s| > 0 && IsWhitespace(s[|s| - 1]) then TrimEnd(s[..|s| - 1]) else s
  }

  /** `str::trim`. */
  function Trim(s: string): string
  {
    TrimEnd(TrimStart(s))
  }

  /** `trim_start` drops a white-space prefix and stops at the first other
      character. */
  lemma {:induction false} TrimStartDrops(s: string)
    ensures |TrimStart(s)| <= |s| && TrimStart(s) == s[|s| - |TrimStart(s)|..]
    ensures forall i :: 0 <= i < |s| - |TrimStart(s)| ==> IsWhitespace(s[i])
    ensures |TrimStart(s)| > 0 ==> !IsWhitespace(TrimStart(s)[0])
    decreases |s|
  {
    if |s| > 0 && IsWhitespace(s[0]) {
      TrimStartDrops(s[1..]);
    }
  }

  /** `trim_end` drops a white-space suffix and stops at the last other
      character. */
  lemma {:induction false} TrimEndDrops(s: string)
    ensures |TrimEnd(s)| <= |s| && TrimEnd(s) == s[..|TrimEnd(s)|]
    ensures forall i :: |TrimEnd(s)| <= i < |s| ==> IsWhitespace(s[i])
    ensures |TrimEnd(s)| > 0 ==> !IsWhitespace(TrimEnd(s)[|TrimEnd(s)| - 1])
    decreases |s|
  {
    if |s| > 0 && IsWhitespace(s[|s| - 1]) {
      TrimEndDrops(s[..|s| - 1]);
    }
  }

  /** Trimming keeps the stretch of the text from `i` to `j` and drops only
      white space around it. */
  lemma TrimIsInfix(s: string)
    ensures var i := |s| - |TrimStart(s)|; var j := i + |Trim(s)|;
      0 <= i <= j <= |s| && Trim(s) == s[i..j]
      && (forall k :: 0 <= k < i ==> IsWhitespace(s[k]))
      && (forall k :: j <= k < |s| ==> IsWhitespace(s[k]))
  {
    var t := TrimStart(s);
    TrimStartDrops(s);
    TrimEndDrops(t);
    var i := |s| - |t|;
    var j := i + |TrimEnd(t)|;
    assert Trim(s) == s[i..j];
    forall k | j <= k < |s|
      ensures IsWhitespace(s[k])
    {
      assert s[k] == t[k - i];
    }
  }

  /** A trimmed text neither starts nor ends with white space. */
  lemma TrimEnds(s: string)
    ensures |Trim(s)| > 0 ==> !IsWhitespace(Trim(s)[0]) && !IsWhitespace(Trim(s)[|Trim(s)| - 1])
  {
    var t := TrimStart(s);
    TrimStartDrops(s);
    TrimEndDrops(t);
    if |Trim(s)| > 0 {
      assert Trim(s)[0] == t[0];
    }
  }

  // ---------------------------------------------------------------------
  // The program

  datatype Variable = Variable(name: string, value: I32)

  datatype Constraint = Constraint(left: Variable, right: Variable, operator: string)

  /** What one `;`-separated statement amounts to: it is skipped unless it
      splits into exactly two parts on `=`; its right side must split on
      single spaces into at least three pieces, or the indexing panics;
      otherwise it names an output, a left operand, an operator and a right
      operand, each trimmed. */
  datatype Statement = Skip | Panic | Entry(output: string, left: string, operator: string, right: string)

  function ReadStatement(line: string): Statement
  {
    var parts := Split(line, '=');
    if |parts| != 2 then Skip
    else
      var output := Trim(parts[0]);
      var expression := Trim(parts[1]);
      var pieces := Split(expression, ' ');
      if |pieces| < 3 then Panic
      else Entry(output, Trim(pieces[0]), Trim(pieces[1]), Trim(pieces[2]))
  }

  /** `add_variable` on the list: a name not yet present is appended with
      value zero. */
  function WithVariable(variables: seq<Variable>, name: string): seq<Variable>
  {
    if Variable(name, 0) in variables then variables else variables + [Variable(name, 0)]
  }

  /** The outcome of `parse`: the lists after the statements, and whether a
      statement panicked, which stops the parse where it is. */
  datatype Parsed = Parsed(variables: seq<Variable>, constraints: seq<Constraint>, panicked: bool)

  /** `parse` from given lists over the statements in order. */
  function ParseStatements(statements: seq<Statement>, variables: seq<Variable>, constraints: seq<Constraint>): Parsed
    decreases |statements|
  {
    if |statements| == 0 then Parsed(variables, constraints, false)
    else match statements[0]
      case Skip => ParseStatements(statements[1..], variables, constraints)
      case Panic => Parsed(variables, constraints, true)
      case Entry(output, left, operator, right) =>
        var constraint := Constraint(Variable(left, 0), Variable(right, 0), operator);
        var added := WithVariable(WithVariable(WithVariable(variables, left), right), output);
        ParseStatements(statements[1..], added, constraints + [constraint])
  }

  /** The statements of a program text, one per `;`-separated piece. */
  function Statements(program: string): seq<Statement>
  {
    var lines := Split(program, ';');
    seq(|lines|, i requires 0 <= i < |lines| => ReadStatement(lines[i]))
  }

  class Program {
    var variables: seq<Variable>
    var constraints: seq<Constraint>

    /** The empty program `new` starts from. */
    constructor Empty()
      ensures variables == [] && constraints == []
    {
      variables := [];
      constraints := [];
    }

    /** `add_variable`: push a variable of value zero unless an equal one is
        already there. */
    method AddVariable(name: string)
      modifies this
      ensures variables == WithVariable(old(variables), name)
      ensures constraints == old(constraints)
    {
      var variable := Variable(name, 0);
      if variable !in variables {
        variables := variables + [variable];
      }
    }

    /** `add_constraint`: push the constraint. */
    method AddConstraint(left: Variable, right: Variable, operator: string)
      modifies this
      ensures constraints == old(constraints) + [Constraint(left, right, operator)]
      ensures variables == old(variables)
    {
      constraints := constraints + [Constraint(left, right, operator)];
    }

    /** `parse`: each statement that has the form `output = left op right`
        adds its constraint, then its left, right and output variables. */
    method Parse(program: string) returns (panicked: bool)
      modifies this
      ensures ParseStatements(Statements(program), old(variables), old(constraints))
        == Parsed(variables, constraints, panicked)
    {
      var lines := Split(program, ';');
      ghost var statements := Statements(program);
      panicked := false;
      for i := 0 to |lines|
        invariant ParseStatements(statements, old(variables), old(constraints))
          == ParseStatements(statements[i..], variables, constraints)
      {
        assert statements[i..][1..] == statements[i + 1..];
        assert statements[i] == ReadStatement(lines[i]);
        var parts := Split(lines[i], '=');
        if |parts| != 2 {
          continue;
        }
        var output := Trim(parts[0]);
        var expression := Trim(parts[1]);
        var pieces := Split(expression, ' ');
        if |pieces| < 3 {
          return true;
        }
        var left, operator, right := Trim(pieces[0]), Trim(pieces[1]), Trim(pieces[2]);
        AddConstraint(Variable(left, 0), Variable(right, 0), operator);
        AddVariable(left);
        AddVariable(right);
        AddVariable(output);
      }
    }
  }

  /** `Program::new`: an empty program, then `parse`. */
  method NewProgram(program: string) returns (p: Program, panicked: bool)
    ensures fresh(p)
    ensures ParseStatements(Statements(program), [], []) == Parsed(p.variables, p.constraints, panicked)
  {
    p := new Program.Empty();
    panicked := p.Parse(program);
  }

  // ---------------------------------------------------------------------
  // What `parse` guarantees

  /** No two variables share a name. */
  predicate DistinctNames(variables: seq<Variable>)
  {
    forall i, j :: 0 <= i < j < |variables| ==> variables[i].name != variables[j].name
  }

  /** Every variable has value zero. */
  predicate AllZero(variables: seq<Variable>)
  {
    forall i :: 0 <= i < |variables| ==> variables[i].value == 0
  }

  /** Adding a variable keeps the list duplicate-free, keeps what was there
      in front, and makes the name present. */
  lemma WithVariableKeeps(variables: seq<Variable>, name: string)
    requires DistinctNames(variables) && AllZero(variables)
    ensures DistinctNames(WithVariable(variables, name)) && AllZero(WithVariable(variables, name))
    ensures variables <= WithVariable(variables, name)
    ensures Variable(name, 0) in WithVariable(variables, name)
  {
    if Variable(name, 0) !in variables {
      forall i | 0 <= i < |variables|
        ensures variables[i].name != name
      {
        assert variables[i] != Variable(name, 0);
      }
    }
  }

  lemma PrefixTransitive<T>(a: seq<T>, b: seq<T>, c: seq<T>)
    requires a <= b && b <= c
    ensures a <= c
  {
    assert forall i :: 0 <= i < |a| ==> a[i] == b[i] == c[i];
  }

  /** The names a processed statement mentions, left, right and output. */
  function Mentions(statements: seq<Statement>): seq<string>
    decreases |statements|
  {
    if |statements| == 0 then []
    else match statements[0]
      case Skip => Mentions(statements[1..])
      case Panic => []
      case Entry(output, left, _, right) => [left, right, output] + Mentions(statements[1..])
  }

  /** `parse` keeps the variables duplicate-free and all of value zero,
      keeps the earlier variables in front, leaves every name a processed
      statement mentions in the list, each name once, and adds nothing
      else. */
  lemma {:induction false} ParseKeepsVariables(statements: seq<Statement>, variables: seq<Variable>, constraints: seq<Constraint>)
    requires DistinctNames(variables) && AllZero(variables)
    ensures var p := ParseStatements(statements, variables, constraints);
      DistinctNames(p.variables) && AllZero(p.variables)
      && variables <= p.variables
      && (forall name :: name in Mentions(statements) ==> Variable(name, 0) in p.variables)
      && forall v :: v in p.variables ==> v in variables || v.name in Mentions(statements)
    decreases |statements|
  {
    AddsOnlyMentioned(statements, variables, constraints);
    if |statements| > 0 {
      match statements[0]
      case Skip =>
        ParseKeepsVariables(statements[1..], variables, constraints);
      case Panic =>
      case Entry(output, left, operator, right) =>
        var constraint := Constraint(Variable(left, 0), Variable(right, 0), operator);
        var v1 := WithVariable(variables, left);
        var v2 := WithVariable(v1, right);
        var v3 := WithVariable(v2, output);
        WithVariableKeeps(variables, left);
        WithVariableKeeps(v1, right);
        WithVariableKeeps(v2, output);
        ParseKeepsVariables(statements[1..], v3, constraints + [constraint]);
        var p := ParseStatements(statements[1..], v3, constraints + [constraint]);
        PrefixTransitive(variables, v1, v2);
        PrefixTransitive(variables, v2, v3);
        PrefixTransitive(variables, v3, p.variables);
        forall name | name in [left, right, output]
          ensures Variable(name, 0) in p.variables
        {
          assert Variable(name, 0) in v3;
          var k :| 0 <= k < |v3| && v3[k] == Variable(name, 0);
          assert p.variables[k] == v3[k];
        }
    }
  }

  /** The names of a variable list. */
  function Names(variables: seq<Variable>): set<string>
  {
    set v | v in variables :: v.name
  }

  /** A zero variable for each name of `names` that is not `known`, each
      name once, in the order of its first appearance. */
  function NewVariables(names: seq<string>, known: set<string>): seq<Variable>
    decreases |names|
  {
    if |names| == 0 then []
    else if names[0] in known then NewVariables(names[1..], known)
    else [Variable(names[0], 0)] + NewVariables(names[1..], known + {names[0]})
  }

  /** The new variables are zero, named once each, and are exactly the
      variables for the names that are not known. */
  lemma {:induction false} NewVariablesExactly(names: seq<string>, known: set<string>)
    ensures var r := NewVariables(names, known);
      DistinctNames(r) && AllZero(r)
      && (forall v :: v in r ==> v.name in names && v.name !in known)
      && forall name :: name in names && name !in known ==> Variable(name, 0) in r
    decreases |names|
  {
    if |names| > 0 {
      if names[0] in known {
        NewVariablesExactly(names[1..], known);
      } else {
        NewVariablesExactly(names[1..], known + {names[0]});
      }
    }
  }

  /** The first name is decided first, and becomes known for the rest. */
  lemma NewVariablesCons(name: string, names: seq<string>, known: set<string>)
    ensures NewVariables([name] + names, known)
      == NewVariables([name], known) + NewVariables(names, known + {name})
  {
    assert ([name] + names)[1..] == names;
    assert [name][1..] == [];
    if name in known {
      assert known + {name} == known;
    }
  }

  /** On a list of zero variables, adding one appends it exactly when its
      name is new. */
  lemma WithVariableAppends(variables: seq<Variable>, name: string)
    requires AllZero(variables)
    ensures WithVariable(variables, name) == variables + NewVariables([name], Names(variables))
    ensures Names(WithVariable(variables, name)) == Names(variables) + {name}
    ensures AllZero(WithVariable(variables, name))
  {
    assert [name][1..] == [];
    if name in Names(variables) {
      var v :| v in variables && v.name == name;
      var k :| 0 <= k < |variables| && variables[k] == v;
      assert v == Variable(name, 0);
    } else {
      assert Variable(name, 0) !in variables;
      assert Names(variables + [Variable(name, 0)]) == Names(variables) + {name};
    }
  }

  /** `parse` leaves the earlier variables in front, followed by a zero
      variable for each new name the processed statements mention, once
      each, in the order of first mention. */
  lemma {:induction false} ParseVariablesInOrder(statements: seq<Statement>, variables: seq<Variable>, constraints: seq<Constraint>)
    requires AllZero(variables)
    ensures ParseStatements(statements, variables, constraints).variables
      == variables + NewVariables(Mentions(statements), Names(variables))
    decreases |statements|
  {
    if |statements| == 0 {
      assert variables + [] == variables;
    } else {
      match statements[0]
      case Skip =>
        ParseVariablesInOrder(statements[1..], variables, constraints);
      case Panic =>
        assert variables + [] == variables;
      case Entry(output, left, operator, right) =>
        var constraint := Constraint(Variable(left, 0), Variable(right, 0), operator);
        var added := WithVariable(WithVariable(WithVariable(variables, left), right), output);
        var rest := Mentions(statements[1..]);
        EntryVariables(variables, left, right, output, rest);
        ParseVariablesInOrder(statements[1..], added, constraints + [constraint]);
        assert Mentions(statements) == [left] + ([right] + ([output] + rest));
    }
  }

  /** The three variables of an entry, followed by the new names of the
      rest, are the new names of the entry and the rest together. */
  lemma EntryVariables(variables: seq<Variable>, left: string, right: string, output: string, rest: seq<string>)
    requires AllZero(variables)
    ensures var added := WithVariable(WithVariable(WithVariable(variables, left), right), output);
      AllZero(added)
      && added + NewVariables(rest, Names(added))
        == variables + NewVariables([left] + ([right] + ([output] + rest)), Names(variables))
  {
    var v1 := WithVariable(variables, left);
    var v2 := WithVariable(v1, right);
    var v3 := WithVariable(v2, output);
    WithVariableAppends(variables, left);
    WithVariableAppends(v1, right);
    WithVariableAppends(v2, output);
    NewVariablesCons(left, [right] + ([output] + rest), Names(variables));
    NewVariablesCons(right, [output] + rest, Names(v1));
    NewVariablesCons(output, rest, Names(v2));
    var n0, n1, n2 := NewVariables([left], Names(variables)), NewVariables([right], Names(v1)), NewVariables([output], Names(v2));
    var n3 := NewVariables(rest, Names(v3));
    assert v3 == ((variables + n0) + n1) + n2;
    assert NewVariables([left] + ([right] + ([output] + rest)), Names(variables)) == n0 + (n1 + (n2 + n3));
    AppendRegroup((variables + n0) + n1, n2, n3);
    AppendRegroup(variables + n0, n1, n2 + n3);
    AppendRegroup(variables, n0, n1 + (n2 + n3));
  }

  /** `parse` adds no variable but those the processed statements mention. */
  lemma AddsOnlyMentioned(statements: seq<Statement>, variables: seq<Variable>, constraints: seq<Constraint>)
    requires AllZero(variables)
    ensures var p := ParseStatements(statements, variables, constraints);
      forall v :: v in p.variables ==> v in variables || v.name in Mentions(statements)
  {
    ParseVariablesInOrder(statements, variables, constraints);
    NewVariablesExactly(Mentions(statements), Names(variables));
  }

  /** How many statements are processed before the parse ends. */
  function Processed(statements: seq<Statement>): nat
    decreases |statements|
  {
    if |statements| == 0 then 0
    else match statements[0]
      case Skip => Processed(statements[1..])
      case Panic => 0
      case Entry(_, _, _, _) => 1 + Processed(statements[1..])
  }

  /** The statements processed before the parse ends, in order. */
  function ProcessedEntries(statements: seq<Statement>): (r: seq<Statement>)
    ensures |r| == Processed(statements)
    ensures forall k :: 0 <= k < |r| ==> r[k].Entry?
    decreases |statements|
  {
    if |statements| == 0 then []
    else match statements[0]
      case Skip => ProcessedEntries(statements[1..])
      case Panic => []
      case Entry(_, _, _, _) => [statements[0]] + ProcessedEntries(statements[1..])
  }

  /** `parse` appends one constraint per processed statement behind the
      earlier ones. */
  lemma {:induction false} ParseAddsConstraints(statements: seq<Statement>, variables: seq<Variable>, constraints: seq<Constraint>)
    ensures var p := ParseStatements(statements, variables, constraints);
      |p.constraints| == |constraints| + Processed(statements) && p.constraints[..|constraints|] == constraints
    decreases |statements|
  {
    if |statements| > 0 {
      match statements[0]
      case Skip =>
        ParseAddsConstraints(statements[1..], variables, constraints);
      case Panic =>
      case Entry(output, left, operator, right) =>
        var constraint := Constraint(Variable(left, 0), Variable(right, 0), operator);
        var added := WithVariable(WithVariable(WithVariable(variables, left), right), output);
        ParseAddsConstraints(statements[1..], added, constraints + [constraint]);
        var p := ParseStatements(statements[1..], added, constraints + [constraint]);
        assert p.constraints[..|constraints| + 1] == constraints + [constraint];
        assert p.constraints[..|constraints|] == (constraints + [constraint])[..|constraints|];
    }
  }

  /** The constraint an entry adds: its left and right operands, of value
      zero, and its operator. */
  function EntryConstraint(entry: Statement): Constraint
    requires entry.Entry?
  {
    Constraint(Variable(entry.left, 0), Variable(entry.right, 0), entry.operator)
  }

  /** The constraints of the `entries`, one each, in order. */
  function EntryConstraints(entries: seq<Statement>): seq<Constraint>
    requires forall k :: 0 <= k < |entries| ==> entries[k].Entry?
  {
    seq(|entries|, k requires 0 <= k < |entries| => EntryConstraint(entries[k]))
  }

  /** `parse` appends, behind the earlier constraints, exactly the
      constraints of the processed statements in order: the `k`-th new one
      holds the `k`-th processed statement's trimmed operands, of value
      zero, and its operator. */
  lemma {:induction false} ParseConstraintsInOrder(statements: seq<Statement>, variables: seq<Variable>, constraints: seq<Constraint>)
    ensures ParseStatements(statements, variables, constraints).constraints
      == constraints + EntryConstraints(ProcessedEntries(statements))
    decreases |statements|
  {
    if |statements| == 0 {
      assert constraints + [] == constraints;
    } else {
      match statements[0]
      case Skip =>
        ParseConstraintsInOrder(statements[1..], variables, constraints);
      case Panic =>
        assert constraints + [] == constraints;
      case Entry(output, left, operator, right) =>
        var constraint := EntryConstraint(statements[0]);
        var added := WithVariable(WithVariable(WithVariable(variables, left), right), output);
        ParseConstraintsInOrder(statements[1..], added, constraints + [constraint]);
        var entries := ProcessedEntries(statements[1..]);
        assert ProcessedEntries(statements) == [statements[0]] + entries;
        EntryConstraintsCons(statements[0], entries);
        AppendRegroup(constraints, [constraint], EntryConstraints(entries));
    }
  }

  lemma EntryConstraintsCons(entry: Statement, entries: seq<Statement>)
    requires entry.Entry? && forall k :: 0 <= k < |entries| ==> entries[k].Entry?
    ensures forall k :: 0 <= k < |[entry] + entries| ==> ([entry] + entries)[k].Entry?
    ensures EntryConstraints([entry] + entries) == [EntryConstraint(entry)] + EntryConstraints(entries)
  {
    var all := [entry] + entries;
    forall k | 0 <= k < |all|
      ensures all[k].Entry?
    {
      if k > 0 {
        assert all[k] == entries[k - 1];
      }
    }
    forall k | 0 <= k < |all|
      ensures EntryConstraints(all)[k] == ([EntryConstraint(entry)] + EntryConstraints(entries))[k]
    {
      if k > 0 {
        assert all[k] == entries[k - 1];
      }
    }
  }

  lemma AppendRegroup<T>(a: seq<T>, b: seq<T>, c: seq<T>)
    ensures (a + b) + c == a + (b + c)
  {
  }

  /** The parse panics exactly when a statement it reaches panics. */
  lemma {:induction false} ParsePanics(statements: seq<Statement>, variables: seq<Variable>, constraints: seq<Constraint>)
    ensures ParseStatements(statements, variables, constraints).panicked
      <==> exists i :: 0 <= i < |statements| && statements[i].Panic?
    decreases |statements|
  {
    if |statements| > 0 {
      match statements[0]
      case Skip =>
        ParsePanics(statements[1..], variables, constraints);
        PanicInTail(statements);
      case Panic =>
      case Entry(output, left, operator, right) =>
        ParsePanics(statements[1..], WithVariable(WithVariable(WithVariable(variables, left), right), output),
          constraints + [Constraint(Variable(left, 0), Variable(right, 0), operator)]);
        PanicInTail(statements);
    }
  }

  /** When the first statement does not panic, a panicking statement is one
      of the rest. */
  lemma PanicInTail(statements: seq<Statement>)
    requires |statements| > 0 && !statements[0].Panic?
    ensures (exists i :: 0 <= i < |statements| && statements[i].Panic?)
      <==> (exists i :: 0 <= i < |statements| - 1 && statements[1..][i].Panic?)
  {
    if exists i :: 0 <= i < |statements| && statements[i].Panic? {
      var i :| 0 <= i < |statements| && statements[i].Panic?;
      assert statements[1..][i - 1] == statements[i];
    }
  }

  /** A program text ending in `;` has an empty last statement, and an empty
      statement is skipped. */
  lemma TrailingStatementSkipped(program: string)
    requires |program| > 0 && program[|program| - 1] == ';'
    ensures Statements(program)[|Statements(program)| - 1] == Skip
  {
    SplitLast(program, ';');
    var lines := Split(program, ';');
    assert Split("", '=') == [""];
    assert ReadStatement(lines[|lines| - 1]) == Skip;
  }

  /** A text that ends with the separator has an empty last piece. */
  lemma {:induction false} SplitLast(s: string, sep: char)
    requires |s| > 0 && s[|s| - 1] == sep
    ensures Split(s, sep)[|Split(s, sep)| - 1] == ""
    decreases |s|
  {
    if |s| > 1 {
      SplitLast(s[1..], sep);
    }
  }

  /** A text without white space. */
  predicate Solid(s: string)
  {
    forall i :: 0 <= i < |s| ==> !IsWhitespace(s[i])
  }

  /** Trimming leaves a text without white space as it is. */
  lemma TrimSolid(s: string)
    requires Solid(s)
    ensures Trim(s) == s
  {
    if |s| > 0 {
      assert TrimStart(s) == s;
    }
  }

  /** A statement written `output= left operator right`, with one space
      before and between the operands, reads as its parts. */
  lemma ReadWellFormed(output: string, left: string, operator: string, right: string)
    requires '=' !in output && '=' !in left && '=' !in operator && '=' !in right
    requires ' ' !in left && ' ' !in operator && ' ' !in right
    requires |left| > 0 && |right| > 0 && Solid(left) && Solid(operator) && Solid(right)
    ensures ReadStatement(output + "= " + left + " " + operator + " " + right)
      == Entry(Trim(output), left, operator, right)
  {
    var expression := left + " " + operator + " " + right;
    assert output + "= " + left + " " + operator + " " + right == output + "=" + (" " + expression);
    assert '=' !in expression;
    SplitAtEquals(output, expression);
    TrimExpression(left, operator, right);
    SplitExpression(left, operator, right);
    TrimSolid(left);
    TrimSolid(operator);
    TrimSolid(right);
  }

  /** `output= expression` splits on `=` into the output and the expression
      with its leading space. */
  lemma SplitAtEquals(output: string, expression: string)
    requires '=' !in output && '=' !in expression
    ensures Split(output + "=" + (" " + expression), '=') == [output, " " + expression]
  {
    assert '=' !in " " + expression;
    SplitFirst(output, " " + expression, '=');
    SplitNone(" " + expression, '=');
  }

  /** Trimming drops the leading space of the expression. */
  lemma TrimExpression(left: string, operator: string, right: string)
    requires |left| > 0 && |right| > 0 && Solid(left) && Solid(right)
    ensures Trim(" " + (left + " " + operator + " " + right)) == left + " " + operator + " " + right
  {
    var expression := left + " " + operator + " " + right;
    assert (" " + expression)[1..] == expression;
    assert expression[0] == left[0];
    assert TrimStart(" " + expression) == expression;
    assert expression[|expression| - 1] == right[|right| - 1];
  }

  /** The expression splits on single spaces into its three parts. */
  lemma SplitExpression(left: string, operator: string, right: string)
    requires ' ' !in left && ' ' !in operator && ' ' !in right
    ensures Split(left + " " + operator + " " + right, ' ') == [left, operator, right]
  {
    assert left + " " + operator + " " + right == left + " " + (operator + " " + right);
    SplitFirst(left, operator + " " + right, ' ');
    SplitFirst(operator, right, ' ');
    SplitNone(right, ' ');
  }

  // ---------------------------------------------------------------------
  // The witness

  class R1CS {
    const program: Program
    var solution: seq<I32>
    var witnessVector: seq<I32>

    /** `R1CS::new` on a parsed program: no solution and no witness yet. */
    constructor (program: Program)
      ensures this.program == program && solution == [] && witnessVector == []
    {
      this.program := program;
      solution := [];
      witnessVector := [];
    }

    /** `prove`: panics unless there is one value per program variable;
        otherwise pushes 1 and then the values, in order. */
    method Prove(values: seq<I32>) returns (panicked: bool)
      modifies this
      ensures panicked <==> |values| != |program.variables|
      ensures witnessVector == if panicked then old(witnessVector) else old(witnessVector) + [1] + values
      ensures solution == old(solution)
    {
      if |values| != |program.variables| {
        return true;
      }
      panicked := false;
      witnessVector := witnessVector + [1];
      for i := 0 to |program.variables|
        invariant witnessVector == old(witnessVector) + [1] + values[..i]
        invariant solution == old(solution)
      {
        witnessVector := witnessVector + [values[i]];
      }
      assert values[..|values|] == values;
    }
  }

  /** `R1CS::new`: parse the program text and start with empty vectors. */
  method NewR1cs(text: string) returns (r: R1CS, panicked: bool)
    ensures fresh(r) && fresh(r.program) && r.solution == [] && r.witnessVector == []
    ensures ParseStatements(Statements(text), [], []) == Parsed(r.program.variables, r.program.constraints, panicked)
  {
    var p;
    p, panicked := NewProgram(text);
    r := new R1CS(p);
  }
}

/** The example program of the parser's tests, `v = x * x; z = v + y;`,
    worked through for any names in place of v, x, y and z. */
module R1csExamples {
  import opened R1cs

  /** A name or operator the parser reads back unchanged. */
  predicate Token(s: string)
  {
    |s| > 0 && Solid(s) && ';' !in s && '=' !in s && ' ' !in s
  }

  /** A statement `output = left operator right`. */
  function Line(output: string, left: string, operator: string, right: string): string
  {
    output + " = " + left + " " + operator + " " + right
  }

  /** A statement in that form reads as its parts, with or without one space
      in front. */
  lemma ReadLine(lead: string, output: string, left: string, operator: string, right: string)
    requires lead == "" || lead == " "
    requires Token(output) && Token(left) && Token(operator) && Token(right)
    ensures ReadStatement(lead + Line(output, left, operator, right)) == Entry(output, left, operator, right)
  {
    var head := lead + output + " ";
    assert lead + Line(output, left, operator, right) == head + "= " + left + " " + operator + " " + right;
    assert '=' !in head;
    ReadWellFormed(head, left, operator, right);
    TrimHead(lead, output);
  }

  /** The output, with the lead in front and one space behind, trims to
      itself. */
  lemma TrimHead(lead: string, output: string)
    requires lead == "" || lead == " "
    requires Token(output)
    ensures Trim(lead + output + " ") == output
  {
    var head := lead + output + " ";
    assert TrimStart(head) == output + " " by {
      if lead == " " {
        assert head[1..] == output + " ";
      }
    }
    assert TrimEnd(output + " ") == output by {
      assert (output + " ")[..|output|] == output;
      TrimSolid(output);
    }
  }

  /** Two statements, each closed by `;`, the second after one space, read as
      two entries and a trailing empty statement. */
  lemma ReadTwo(first: string, second: string)
    requires ';' !in first && ';' !in second
    ensures Split(first + "; " + second + ";", ';') == [first, " " + second, ""]
  {
    assert first + "; " + second + ";" == first + [';'] + ((" " + second) + [';'] + "");
    assert ';' !in " " + second;
    SplitFirst(first, (" " + second) + [';'] + "", ';');
    SplitFirst(" " + second, "", ';');
  }

  /** The example program: two constraints, and the variables x, v, y and z
      in the order they first appear. */
  lemma ExampleProgram(v: string, x: string, y: string, z: string, times: string, plus: string)
    requires Token(v) && Token(x) && Token(y) && Token(z) && Token(times) && Token(plus)
    requires v != x && y != x && y != v && z != x && z != v && z != y
    ensures var text := Line(v, x, times, x) + "; " + Line(z, v, plus, y) + ";";
      ParseStatements(Statements(text), [], [])
      == Parsed([Variable(x, 0), Variable(v, 0), Variable(y, 0), Variable(z, 0)],
                [Constraint(Variable(x, 0), Variable(x, 0), times), Constraint(Variable(v, 0), Variable(y, 0), plus)],
                false)
  {
    ExampleStatements(v, x, y, z, times, plus);
    ExampleParse(v, x, y, z, times, plus);
  }

  /** The example's statements. */
  lemma ExampleStatements(v: string, x: string, y: string, z: string, times: string, plus: string)
    requires Token(v) && Token(x) && Token(y) && Token(z) && Token(times) && Token(plus)
    ensures Statements(Line(v, x, times, x) + "; " + Line(z, v, plus, y) + ";")
      == [Entry(v, x, times, x), Entry(z, v, plus, y), Skip]
  {
    var first, second := Line(v, x, times, x), Line(z, v, plus, y);
    assert ';' !in first && ';' !in second;
    ReadTwo(first, second);
    ReadLine("", v, x, times, x);
    assert "" + first == first;
    ReadLine(" ", z, v, plus, y);
    assert Split("", '=') == [""];
  }

  /** Parsing the example's statements. */
  lemma ExampleParse(v: string, x: string, y: string, z: string, times: string, plus: string)
    requires v != x && y != x && y != v && z != x && z != v && z != y
    ensures ParseStatements([Entry(v, x, times, x), Entry(z, v, plus, y), Skip], [], [])
      == Parsed([Variable(x, 0), Variable(v, 0), Variable(y, 0), Variable(z, 0)],
                [Constraint(Variable(x, 0), Variable(x, 0), times), Constraint(Variable(v, 0), Variable(y, 0), plus)],
                false)
  {
    var statements := [Entry(v, x, times, x), Entry(z, v, plus, y), Skip];
    var vx, vv, vy, vz := Variable(x, 0), Variable(v, 0), Variable(y, 0), Variable(z, 0);
    assert statements[1..] == [Entry(z, v, plus, y), Skip];
    assert statements[1..][1..] == [Skip];
    assert WithVariable(WithVariable(WithVariable([], x), x), v) == [vx, vv];
    assert WithVariable(WithVariable(WithVariable([vx, vv], v), y), z) == [vx, vv, vy, vz];
    var c1, c2 := Constraint(vx, vx, times), Constraint(vv, vy, plus);
    assert ParseStatements([], [vx, vv, vy, vz], [c1, c2]) == Parsed([vx, vv, vy, vz], [c1, c2], false);
    assert ParseStatements([Skip], [vx, vv, vy, vz], [c1, c2]) == Parsed([vx, vv, vy, vz], [c1, c2], false);
    assert ParseStatements(statements[1..], [vx, vv], [c1]) == Parsed([vx, vv, vy, vz], [c1, c2], false);
    assert [] + [c1] == [c1];
    assert ParseStatements(statements, [], []) == ParseStatements(statements[1..], [vx, vv], [c1]);
  }
}
