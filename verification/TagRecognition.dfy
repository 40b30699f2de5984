/** The clauses of a well-formed tag are recognised for what they are, and their order matters only
    for the text of the enum error. */
module TagRecognition {
  import opened Text
  import opened TagClauses

  lemma {:induction false} NotFound(key: string, s: string)
    requires !Occurs(key, s)
    ensures Find(key, s) == None
    decreases |s|
  {
    if |s| > |key| && !(key <= s) { NotFound(key, s[1..]); }
  }

  lemma FoundAtStart(key: string, payload: string)
    requires payload != ""
    ensures Find(key, key + payload) == Some(payload)
  {
  }

  lemma NotPrefix(kw: string, s: string, i: nat)
    requires i < |kw| && i < |s| && s[i] != kw[i]
    ensures !(kw <= s)
  {
  }

  // A keyword occurs nowhere in s if its first two letters never follow each other there.
  lemma {:induction false} NoSuchPair(kw: string, s: string)
    requires |kw| >= 2
    requires forall i :: 0 <= i < |s| - 1 ==> s[i] != kw[0] || s[i + 1] != kw[1]
    ensures !Occurs(kw, s)
    decreases |s|
  {
    if |s| >= |kw| {
      NotPrefix(kw, s, if s[0] != kw[0] then 0 else 1);
      NoSuchPair(kw, s[1..]);
    }
  }

  // If a keyword is neither in the key nor in the payload, it is not across the border either: the
  // key ends with the character that a keyword has at most at its own end.
  lemma {:induction false} NotAcross(kw: string, key: string, payload: string)
    requires |kw| >= 2 && '=' !in kw[..|kw| - 1]
    requires key != "" ==> key[|key| - 1] == '='
    requires !Occurs(kw, key) && !Occurs(kw, payload)
    ensures !Occurs(kw, key + payload)
    decreases |key|
  {
    if key == "" {
      assert key + payload == payload;
    } else {
      assert (key + payload)[1..] == key[1..] + payload;
      if |kw| <= |key| {
        assert (key + payload)[..|kw|] == key[..|kw|];
      } else {
        assert kw[..|kw| - 1][|key| - 1] == kw[|key| - 1];
        NotPrefix(kw, key + payload, |key| - 1);
      }
      NotWithinTail(kw, key);
      NotAcross(kw, key[1..], payload);
    }
  }

  lemma {:induction false} NotWithinTail(kw: string, s: string)
    requires !Occurs(kw, s) && s != "" && |kw| >= 2
    ensures !Occurs(kw, s[1..])
  {
  }

  predicate Keyword(k: string) {
    k == MIN || k == MAX || k == PARAM_NAME || k == DEFAULT || k == ENUM
  }

  lemma KeywordsApart(kw: string, key: string)
    requires Keyword(key) && (kw == REQUIRED || Keyword(kw)) && kw != key
    ensures |kw| >= 2 && '=' !in kw[..|kw| - 1] && key[|key| - 1] == '='
    ensures !Occurs(kw, key)
  {
    NoSuchPair(kw, key);
  }

  // Whatever is written after a key, only that key is found.
  lemma OnlyKey(kw: string, key: string, payload: string)
    requires Keyword(key) && (kw == REQUIRED || Keyword(kw)) && kw != key && NoKeyword(payload)
    ensures !Occurs(kw, key + payload) && Find(kw, key + payload) == None
  {
    KeywordsApart(kw, key);
    NotAcross(kw, key, payload);
    NotFound(kw, key + payload);
  }

  lemma RequiredAlone(kw: string)
    requires Keyword(kw)
    ensures Find(kw, REQUIRED) == None
  {
    NoSuchPair(kw, REQUIRED);
    NotFound(kw, REQUIRED);
  }

  lemma {:induction false} SplitOne(s: string, sep: char)
    requires sep !in s
    ensures Split(s, sep) == [s]
    decreases |s|
  {
    if s != "" {
      SplitOne(s[1..], sep);
      assert [s[0]] + s[1..] == s;
    }
  }

  lemma {:induction false} SplitFirst(a: string, sep: char, b: string)
    requires sep !in a
    ensures Split(a + [sep] + b, sep) == [a] + Split(b, sep)
    decreases |a|
  {
    if a == "" {
      assert (a + [sep] + b)[1..] == b;
    } else {
      assert (a + [sep] + b)[1..] == a[1..] + [sep] + b;
      SplitFirst(a[1..], sep, b);
      assert [a[0]] + a[1..] == a;
    }
  }

  lemma {:induction false} SplitJoin(parts: seq<string>, sep: char)
    requires parts != [] && forall p :: p in parts ==> sep !in p
    ensures Split(Join(parts, [sep]), sep) == parts
    decreases |parts|
  {
    if |parts| == 1 {
      SplitOne(parts[0], sep);
    } else {
      var rest := Join(parts[1..], [sep]);
      assert Split(rest, sep) == parts[1..] by { SplitJoin(parts[1..], sep); }
      SplitFirst(parts[0], sep, rest);
      assert [parts[0]] + parts[1..] == parts;
    }
  }

  function Key(c: Clause): string {
    match c
    case ParamName(_) => PARAM_NAME
    case Default(_) => DEFAULT
    case Enum(_) => ENUM
    case Max(_) => MAX
    case Min(_) => MIN
    case _ => ""
  }

  function Payload(c: Clause): string {
    match c
    case Enum(options) => Join(options, "|")
    case Required => ""
    case _ => c.text
  }

  // The submatch of key(.+) is what follows the leftmost place where the key stands and something follows.
  lemma {:induction false} FindIsLeftmost(key: string, s: string)
    ensures Find(key, s).None? ==> forall i: nat :: i + |key| < |s| ==> !StandsAt(key, s, i)
    ensures Find(key, s).Some? ==>
              exists i: nat :: && i + |key| < |s| && StandsAt(key, s, i) && Find(key, s).value == s[i + |key|..]
                               && forall j: nat :: j < i ==> !StandsAt(key, s, j)
    decreases |s|
  {
    if |s| > |key| {
      if key <= s {
        assert StandsAt(key, s, 0);
      } else {
        FindIsLeftmost(key, s[1..]);
        assert !StandsAt(key, s, 0);
        forall i: nat | i + |key| <= |s| - 1 ensures StandsAt(key, s[1..], i) <==> StandsAt(key, s, i + 1) { }
        if Find(key, s).Some? {
          var i: nat :| && i + |key| < |s| - 1 && StandsAt(key, s[1..], i) && Find(key, s).value == s[1..][i + |key|..]
                        && forall j: nat :: j < i ==> !StandsAt(key, s[1..], j);
          assert StandsAt(key, s, i + 1) && s[1..][i + |key|..] == s[i + 1 + |key|..];
          forall j: nat | j < i + 1 ensures !StandsAt(key, s, j) {
            if j > 0 { assert !StandsAt(key, s[1..], j - 1); }
          }
        } else {
          forall i: nat | i + |key| < |s| ensures !StandsAt(key, s, i) {
            if i > 0 { assert !StandsAt(key, s[1..], i - 1); }
          }
        }
      }
    }
  }

  // What the six tests answer on a written clause.
  predicate Tests(value: string, key: string, payload: string) {
    && Find(PARAM_NAME, value) == (if key == PARAM_NAME then Some(payload) else None)
    && Find(DEFAULT, value) == (if key == DEFAULT then Some(payload) else None)
    && Find(ENUM, value) == (if key == ENUM then Some(payload) else None)
    && Find(MAX, value) == (if key == MAX then Some(payload) else None)
    && Find(MIN, value) == (if key == MIN then Some(payload) else None)
    && !Occurs(REQUIRED, value)
  }

  lemma OneTest(kw: string, key: string, payload: string)
    requires Keyword(key) && Keyword(kw) && NoKeyword(payload) && payload != ""
    ensures Find(kw, key + payload) == if key == kw then Some(payload) else None
  {
    if kw == key { FoundAtStart(key, payload); } else { OnlyKey(kw, key, payload); }
  }

  lemma WrittenTests(key: string, payload: string)
    requires Keyword(key) && NoKeyword(payload) && payload != ""
    ensures Tests(key + payload, key, payload)
  {
    OneTest(PARAM_NAME, key, payload);
    OneTest(DEFAULT, key, payload);
    OneTest(ENUM, key, payload);
    OneTest(MAX, key, payload);
    OneTest(MIN, key, payload);
    OnlyKey(REQUIRED, key, payload);
  }

  /** The six regular expressions see in a well-formed clause what its author meant. */
  lemma ClauseRecognised(t: FieldTpl, c: Clause)
    requires WellFormed(c)
    ensures StepValue(t, Written(c)) == StepClause(t, c)
  {
    if c.Required? {
      RequiredAlone(PARAM_NAME); RequiredAlone(DEFAULT); RequiredAlone(ENUM); RequiredAlone(MAX); RequiredAlone(MIN);
    } else if c.Other? {
      NotFound(PARAM_NAME, c.text); NotFound(DEFAULT, c.text); NotFound(ENUM, c.text);
      NotFound(MAX, c.text); NotFound(MIN, c.text);
    } else {
      assert Written(c) == Key(c) + Payload(c);
      WrittenTests(Key(c), Payload(c));
      KeyDecides(t, c);
    }
  }

  lemma KeysDiffer()
    ensures MIN != MAX && MIN != PARAM_NAME && MIN != DEFAULT && MIN != ENUM
    ensures MAX != PARAM_NAME && MAX != DEFAULT && MAX != ENUM
    ensures PARAM_NAME != DEFAULT && PARAM_NAME != ENUM && DEFAULT != ENUM
  {
    assert MIN[1] != MAX[1] && PARAM_NAME[0] != DEFAULT[0] && ENUM[0] != PARAM_NAME[0] && ENUM[0] != DEFAULT[0];
    assert MIN[0] != PARAM_NAME[0] && MIN[0] != DEFAULT[0] && MIN[0] != ENUM[0];
    assert MAX[0] != PARAM_NAME[0] && MAX[0] != DEFAULT[0] && MAX[0] != ENUM[0];
  }

  lemma KeyDecides(t: FieldTpl, c: Clause)
    requires WellFormed(c) && !c.Required? && !c.Other? && Tests(Written(c), Key(c), Payload(c))
    ensures StepValue(t, Written(c)) == StepClause(t, c)
  {
    KeysDiffer();
    if c.Enum? { SplitJoin(c.options, '|'); }
  }

  function Fold(t: FieldTpl, cs: seq<Clause>): FieldTpl
    decreases |cs|
  {
    if cs == [] then t else Fold(StepClause(t, cs[0]), cs[1..])
  }

  function Texts(cs: seq<Clause>): (r: seq<string>)
    ensures |r| == |cs| && forall i :: 0 <= i < |cs| ==> r[i] == Written(cs[i])
  {
    seq(|cs|, i requires 0 <= i < |cs| => Written(cs[i]))
  }

  predicate AllWellFormed(cs: seq<Clause>) { forall i :: 0 <= i < |cs| ==> WellFormed(cs[i]) }

  lemma {:induction false} ClausesRecognised(t: FieldTpl, cs: seq<Clause>)
    requires AllWellFormed(cs)
    ensures StepValues(t, Texts(cs)) == Fold(t, cs)
    decreases |cs|
  {
    if cs != [] {
      ClauseRecognised(t, cs[0]);
      assert Texts(cs)[1..] == Texts(cs[1..]);
      ClausesRecognised(StepClause(t, cs[0]), cs[1..]);
    }
  }

  lemma WrittenHasNoComma(c: Clause)
    requires WellFormed(c)
    ensures ',' !in Written(c)
  {
    assert ',' !in REQUIRED && ',' !in MIN && ',' !in MAX && ',' !in PARAM_NAME && ',' !in DEFAULT && ',' !in ENUM;
  }

  /** A tag that joins well-formed clauses with commas is parsed into what the clauses say. */
  lemma TagRecognised(name: string, kind: Kind, lower: string -> string, cs: seq<Clause>)
    requires AllWellFormed(cs)
    ensures StepValues(NewTpl(name, kind, lower), Split(Join(Texts(cs), ","), ',')) == Fold(NewTpl(name, kind, lower), cs)
  {
    if cs == [] {
      EmptyTag(NewTpl(name, kind, lower));
    } else {
      forall p | p in Texts(cs) ensures ',' !in p {
        var i :| 0 <= i < |cs| && Texts(cs)[i] == p;
        WrittenHasNoComma(cs[i]);
      }
      SplitJoin(Texts(cs), ',');
      ClausesRecognised(NewTpl(name, kind, lower), cs);
    }
  }

  // An empty tag is one empty clause, in which nothing is found.
  lemma EmptyTag(t: FieldTpl)
    ensures StepValues(t, Split("", ',')) == t
  {
    assert StepValue(t, "") == t;
    assert [""][1..] == [];
  }
}
