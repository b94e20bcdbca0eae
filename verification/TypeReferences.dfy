/** Rust types written out as text, and the names read back from that text.

    The printer follows list and map shapes; the reader blanks the openers, closers
    and commas and looks each remaining word up. The two agree. */
module TypeReferences {
  import opened Wrappers
  import opened Shapes
  import opened Strings

  // ---- The printer ----

  /** The part after the last '#', or the whole id. */
  function ShortName(id: Id): string {
    if '#' !in id then id
    else if id[|id| - 1] == '#' then ""
    else ShortName(id[..|id| - 1]) + [id[|id| - 1]]
  }

  const DATE_TIME := "chrono::DateTime<chrono::Utc>"

  function ResolveBuiltinType(target: Id): Option<string> {
    match target
    case "smithy.api#String" => Some("String")
    case "smithy.api#Boolean" => Some("bool")
    case "smithy.api#PrimitiveBoolean" => Some("bool")
    case "smithy.api#Integer" => Some("i32")
    case "smithy.api#PrimitiveInteger" => Some("i32")
    case "smithy.api#Long" => Some("i64")
    case "smithy.api#PrimitiveLong" => Some("i64")
    case "smithy.api#Float" => Some("f32")
    case "smithy.api#PrimitiveFloat" => Some("f32")
    case "smithy.api#Double" => Some("f64")
    case "smithy.api#PrimitiveDouble" => Some("f64")
    case "smithy.api#Blob" => Some("bytes::Bytes")
    case "smithy.api#Timestamp" => Some(DATE_TIME)
    case "smithy.api#Unit" => Some("()")
    case "smithy.api#Document" => Some("serde_json::Value")
    case _ => None
  }

  /** The list and map shapes from `target` on end within `n` steps. */
  predicate Ends(model: Model, target: Id, n: nat)
    decreases n
  {
    ResolveBuiltinType(target).Some? || target !in model ||
    match model[target]
    case List(member) => n > 0 && Ends(model, member, n - 1)
    case Map(key, value) => n > 0 && Ends(model, key, n - 1) && Ends(model, value, n - 1)
    case _ => true
  }

  function ResolveRustType(model: Model, target: Id, neededEnums: set<string>, ghost n: nat): string
    requires Ends(model, target, n)
    decreases n
  {
    var builtin := ResolveBuiltinType(target);
    if builtin.Some? then builtin.value
    else if target !in model then "String"
    else match model[target]
      case Str(streaming) => if streaming then "bytes::Bytes" else "String"
      case Boolean => "bool"
      case Integer => "i32"
      case Long => "i64"
      case Timestamp => DATE_TIME
      case Blob(streaming) => if streaming then "StreamingBlob" else "bytes::Bytes"
      case Double => "f64"
      case Float => "f32"
      case Enum => if ShortName(target) in neededEnums then ShortName(target) else "String"
      case List(member) => "Vec<" + ResolveRustType(model, member, neededEnums, n - 1) + ">"
      case Map(key, value) =>
        "HashMap<" + ResolveRustType(model, key, neededEnums, n - 1) + ", "
        + ResolveRustType(model, value, neededEnums, n - 1) + ">"
      case Structure(_) => ShortName(target)
      case Union(_) => ShortName(target)
      case _ => "String"
  }

  predicate IsCollectionType(ty: string) {
    "Vec<" <= ty || "HashMap<" <= ty
  }

  function Wrapped(base: string, optional: bool): string {
    if optional then "Option<" + base + ">" else base
  }

  /** The type of a structure member. */
  function FieldType(model: Model, target: Id, required: bool, neededEnums: set<string>, ghost n: nat): string
    requires Ends(model, target, n)
  {
    var base := ResolveRustType(model, target, neededEnums, n);
    Wrapped(base, !(required || IsCollectionType(base)))
  }

  /** The type of a union member: an option, also of a list or a map. */
  function VariantType(model: Model, target: Id, neededEnums: set<string>, ghost n: nat): string
    requires Ends(model, target, n)
  {
    Wrapped(ResolveRustType(model, target, neededEnums, n), true)
  }

  // ---- The reader ----

  /** Every leftmost occurrence of `pattern`, without overlap, becomes one blank. */
  function Replace(s: string, pattern: string): string
    requires pattern != ""
  {
    if s == "" then ""
    else if pattern <= s then " " + Replace(s[|pattern|..], pattern)
    else [s[0]] + Replace(s[1..], pattern)
  }

  function Blank(s: string): string {
    if s == "" then ""
    else [if s[0] == '>' || s[0] == ',' then ' ' else s[0]] + Blank(s[1..])
  }

  function Cleaned(rustType: string): string {
    Blank(Replace(Replace(Replace(Replace(rustType, "Option<"), "Vec<"), "HashMap<"), "Box<"))
  }

  const SKIPPED: set<string> := {
    "String", "bool", "i32", "i64", "f32", "f64", "u8", "u16", "u32", "u64", "bytes::Bytes",
    "chrono::DateTime<chrono::Utc", "chrono::DateTime", "chrono::Utc", "serde_json::Value", "StreamingBlob"
  }

  /** `known` are the enums and the shared structures. */
  method CollectTypeReferences(rustType: string, known: set<string>, before: set<string>) returns (refs: set<string>)
    ensures refs == before + set w | w in Words(Cleaned(rustType), WHITE_SPACE) && w in known && w !in SKIPPED
  {
    refs := before;
    var words := Words(Cleaned(rustType), WHITE_SPACE);
    for i := 0 to |words|
      invariant refs == before + set w | w in words[..i] && w in known && w !in SKIPPED
    {
      var token := words[i];
      assert words[..i + 1] == words[..i] + [token];
      if token in SKIPPED { continue; }
      if token in known { refs := refs + {token}; }
    }
    assert words[..|words|] == words;
  }

  // ---- Types as trees ----

  datatype Type = Leaf(text: string) | Vec(inner: Type) | HashMap(key: Type, value: Type) | Optional(inner: Type)

  /** The text of a type, with what each generic is opened by. */
  function Shown(t: Type, option: string, vec: string, hashMap: string): string {
    match t
    case Leaf(text) => text
    case Vec(inner) => vec + Shown(inner, option, vec, hashMap) + ">"
    case HashMap(key, value) =>
      hashMap + Shown(key, option, vec, hashMap) + ", " + Shown(value, option, vec, hashMap) + ">"
    case Optional(inner) => option + Shown(inner, option, vec, hashMap) + ">"
  }

  function Print(t: Type): string {
    Shown(t, "Option<", "Vec<", "HashMap<")
  }

  function Leaves(t: Type): seq<string> {
    match t
    case Leaf(text) => [text]
    case Vec(inner) => Leaves(inner)
    case HashMap(key, value) => Leaves(key) + Leaves(value)
    case Optional(inner) => Leaves(inner)
  }

  predicate Plain(text: string) {
    text != "" && forall i | 0 <= i < |text| :: '!' <= text[i] <= '~' && text[i] !in {'<', '>', ','}
  }

  predicate Readable(t: Type) {
    match t
    case Leaf(text) => Plain(text) || text == DATE_TIME
    case Vec(inner) => Readable(inner)
    case HashMap(key, value) => Readable(key) && Readable(value)
    case Optional(inner) => Readable(inner)
  }

  // ---- Replacing an opener ----

  lemma Straddling(a: string, b: string, pattern: string)
    requires pattern <= a + b && 0 < |a| < |pattern| && b != ""
    ensures a[|a| - 1] in pattern[..|pattern| - 1] && b[0] in pattern[1..]
  {
    var s := a + b;
    assert pattern[|a| - 1] == s[|a| - 1] && pattern[|a|] == s[|a|];
    assert pattern[..|pattern| - 1][|a| - 1] == a[|a| - 1] && pattern[1..][|a| - 1] == b[0];
  }

  /** A pattern could not begin in `a` and end in `b`. */
  predicate Apart(a: string, b: string, pattern: string)
    requires pattern != ""
  {
    a == "" || b == "" || a[|a| - 1] !in pattern[..|pattern| - 1] || b[0] !in pattern[1..]
  }

  lemma PrefixJoined(a: string, b: string, pattern: string)
    requires pattern != "" && a != "" && Apart(a, b, pattern)
    ensures pattern <= a + b <==> pattern <= a
  {
    if b == "" {
      assert a + b == a;
    } else if pattern <= a + b {
      if |pattern| > |a| {
        Straddling(a, b, pattern);
        assert false;
      }
      assert pattern == (a + b)[..|pattern|] == a[..|pattern|];
    }
  }

  lemma {:induction false} ReplaceConcat(a: string, b: string, pattern: string)
    requires pattern != "" && Apart(a, b, pattern)
    ensures Replace(a + b, pattern) == Replace(a, pattern) + Replace(b, pattern)
    decreases |a|
  {
    if a == "" {
      assert a + b == b;
    } else {
      PrefixJoined(a, b, pattern);
      var n := if pattern <= a then |pattern| else 1;
      assert (a + b)[n..] == a[n..] + b && (a + b)[0] == a[0];
      ReplaceConcat(a[n..], b, pattern);
    }
  }

  /** A pattern "...x<" does not occur where no '<' follows an 'x'. */
  lemma {:induction false} Untouched(s: string, pattern: string)
    requires |pattern| >= 2 && pattern[|pattern| - 1] == '<'
    requires forall i, j | 0 <= i < j < |s| && j == i + 1 && s[j] == '<' :: s[i] != pattern[|pattern| - 2]
    ensures Replace(s, pattern) == s
  {
    if s != "" { Untouched(s[1..], pattern); }
  }

  predicate Opener(pattern: string) {
    pattern in {"Option<", "Vec<", "HashMap<", "Box<"}
  }

  lemma ReplaceOpener(opener: string, pattern: string)
    requires Opener(opener) && Opener(pattern)
    ensures Replace(opener, pattern) == if opener == pattern then " " else opener
  {
    if opener == pattern {
      assert opener[|pattern|..] == "" && Replace("", pattern) == "";
    } else {
      Untouched(opener, pattern);
    }
  }

  lemma ReplaceLeaf(text: string, pattern: string)
    requires (Plain(text) || text == DATE_TIME) && Opener(pattern)
    ensures Replace(text, pattern) == text
  {
    Untouched(text, pattern);
  }

  /** What opens a generic before or after a pass. */
  predicate OpensWith(text: string, opener: string) {
    text == opener || text == " "
  }

  function Passed(text: string, pattern: string): string {
    if text == pattern then " " else text
  }

  lemma ReplaceOpen(open: string, pattern: string)
    requires (Opener(open) || open == " " || open == ", ") && Opener(pattern)
    ensures Replace(open, pattern) == Passed(open, pattern)
  {
    if Opener(open) { ReplaceOpener(open, pattern); } else { Untouched(open, pattern); }
  }

  lemma ReplacePiece(open: string, body: string, pattern: string)
    requires (Opener(open) || open == " " || open == ", ") && Opener(pattern)
    ensures Replace(open + body, pattern) == Passed(open, pattern) + Replace(body, pattern)
  {
    ReplaceConcat(open, body, pattern);
    ReplaceOpen(open, pattern);
  }

  lemma ReplaceClose(body: string, rest: string, pattern: string)
    requires Opener(pattern) && (rest == ">" || ", " <= rest)
    ensures Replace(body + rest, pattern) == Replace(body, pattern) + Replace(rest, pattern)
  {
    ReplaceConcat(body, rest, pattern);
  }

  lemma ReplaceLast(body: string, pattern: string)
    requires Opener(pattern)
    ensures Replace(body + ">", pattern) == Replace(body, pattern) + ">"
  {
    ReplaceClose(body, ">", pattern);
    Untouched(">", pattern);
  }

  lemma ReplaceWrapped(open: string, body: string, pattern: string)
    requires (Opener(open) || open == " ") && Opener(pattern)
    ensures Replace(open + body + ">", pattern) == Passed(open, pattern) + Replace(body, pattern) + ">"
  {
    assert open + body + ">" == open + (body + ">");
    ReplacePiece(open, body + ">", pattern);
    ReplaceLast(body, pattern);
  }

  lemma PairGrouped(open: string, key: string, value: string)
    ensures open + key + ", " + value + ">" == open + (key + (", " + (value + ">")))
  {}

  lemma ReplacePair(open: string, key: string, value: string, pattern: string)
    requires (Opener(open) || open == " ") && Opener(pattern)
    ensures Replace(open + key + ", " + value + ">", pattern)
         == Passed(open, pattern) + Replace(key, pattern) + ", " + Replace(value, pattern) + ">"
  {
    PairGrouped(open, key, value);
    PairGrouped(Passed(open, pattern), Replace(key, pattern), Replace(value, pattern));
    ReplaceTail(key, value, pattern);
    ReplacePiece(open, key + (", " + (value + ">")), pattern);
  }

  lemma ReplaceTail(key: string, value: string, pattern: string)
    requires Opener(pattern)
    ensures Replace(key + (", " + (value + ">")), pattern)
         == Replace(key, pattern) + (", " + (Replace(value, pattern) + ">"))
  {
    ReplaceLast(value, pattern);
    ReplacePiece(", ", value + ">", pattern);
    ReplaceClose(key, ", " + (value + ">"), pattern);
  }

  /** One pass blanks exactly the openers it looks for. */
  lemma {:induction false} ReplaceShown(t: Type, o: string, v: string, m: string, pattern: string)
    requires Readable(t) && Opener(pattern)
    requires OpensWith(o, "Option<") && OpensWith(v, "Vec<") && OpensWith(m, "HashMap<")
    ensures Replace(Shown(t, o, v, m), pattern) == Shown(t, Passed(o, pattern), Passed(v, pattern), Passed(m, pattern))
  {
    match t
    case Leaf(text) =>
      ReplaceLeaf(text, pattern);
    case Vec(inner) =>
      ReplaceShown(inner, o, v, m, pattern);
      ReplaceWrapped(v, Shown(inner, o, v, m), pattern);
    case Optional(inner) =>
      ReplaceShown(inner, o, v, m, pattern);
      ReplaceWrapped(o, Shown(inner, o, v, m), pattern);
    case HashMap(key, value) =>
      ReplaceShown(key, o, v, m, pattern);
      ReplaceShown(value, o, v, m, pattern);
      ReplacePair(m, Shown(key, o, v, m), Shown(value, o, v, m), pattern);
  }

  /** After the four passes every generic is opened by a blank. */
  lemma PassesShown(t: Type)
    requires Readable(t)
    ensures Cleaned(Print(t)) == Blank(Shown(t, " ", " ", " "))
  {
    ReplaceShown(t, "Option<", "Vec<", "HashMap<", "Option<");
    ReplaceShown(t, " ", "Vec<", "HashMap<", "Vec<");
    ReplaceShown(t, " ", " ", "HashMap<", "HashMap<");
    ReplaceShown(t, " ", " ", " ", "Box<");
  }

  // ---- The words of a blanked type ----

  lemma {:induction false} BlankConcat(a: string, b: string)
    ensures Blank(a + b) == Blank(a) + Blank(b)
  {
    if a == "" {
      assert a + b == b;
    } else {
      assert (a + b)[1..] == a[1..] + b;
      BlankConcat(a[1..], b);
    }
  }

  lemma {:induction false} BlankPlain(s: string)
    requires forall i | 0 <= i < |s| :: s[i] !in {'>', ','}
    ensures Blank(s) == s
  {
    if s != "" { BlankPlain(s[1..]); }
  }

  function Word(text: string): string {
    if text == DATE_TIME then "chrono::DateTime<chrono::Utc" else text
  }

  function WordsOf(leaves: seq<string>): seq<string> {
    if leaves == [] then [] else [Word(leaves[0])] + WordsOf(leaves[1..])
  }

  lemma {:induction false} WordsOfConcat(a: seq<string>, b: seq<string>)
    ensures WordsOf(a + b) == WordsOf(a) + WordsOf(b)
  {
    if a == [] {
      assert a + b == b;
    } else {
      assert (a + b)[1..] == a[1..] + b;
      WordsOfConcat(a[1..], b);
    }
  }

  lemma Graphic(c: char)
    requires '!' <= c <= '~'
    ensures c !in WHITE_SPACE
  {}

  lemma PlainWords(word: string)
    requires word != "" && forall i | 0 <= i < |word| :: '!' <= word[i] <= '~' && word[i] !in {'>', ','}
    ensures Words(Blank(word), WHITE_SPACE) == [word] && Words(Blank(word + ">"), WHITE_SPACE) == [word]
  {
    BlankPlain(word);
    forall i | 0 <= i < |word| ensures word[i] !in WHITE_SPACE { Graphic(word[i]); }
    WordsOne(word, "", WHITE_SPACE);
    assert word + "" == word;
    BlankConcat(word, ">");
    WordsOne(word, " ", WHITE_SPACE);
    assert Blank(">") == " " && Words(" ", WHITE_SPACE) == [];
  }

  lemma LeafWords(text: string)
    requires Plain(text) || text == DATE_TIME
    ensures Words(Blank(text), WHITE_SPACE) == [Word(text)]
  {
    if text == DATE_TIME { assert text == Word(text) + ">"; }
    PlainWords(Word(text));
  }

  /** A blanked opener, or the comma, before more text. */
  lemma WordsAfter(open: string, body: string)
    requires open == " " || open == ", "
    ensures Words(Blank(open + body), WHITE_SPACE) == Words(Blank(body), WHITE_SPACE)
  {}

  lemma WordsBefore(body: string, rest: string)
    requires rest == ">" || ", " <= rest
    ensures Words(Blank(body + rest), WHITE_SPACE) == Words(Blank(body), WHITE_SPACE) + Words(Blank(rest), WHITE_SPACE)
  {
    BlankConcat(body, rest);
    assert Blank(rest)[0] == ' ';
    WordsConcat(Blank(body), Blank(rest), WHITE_SPACE);
  }

  lemma WordsWrapped(body: string)
    ensures Words(Blank(" " + body + ">"), WHITE_SPACE) == Words(Blank(body), WHITE_SPACE)
  {
    assert " " + body + ">" == " " + (body + ">");
    WordsAfter(" ", body + ">");
    WordsBefore(body, ">");
    assert Blank(">") == " " && Words(" ", WHITE_SPACE) == [];
  }

  lemma WordsPair(key: string, value: string)
    ensures Words(Blank(" " + key + ", " + value + ">"), WHITE_SPACE)
         == Words(Blank(key), WHITE_SPACE) + Words(Blank(value), WHITE_SPACE)
  {
    var tail := ", " + (value + ">");
    assert " " + key + ", " + value + ">" == " " + (key + tail);
    WordsAfter(" ", key + tail);
    WordsBefore(key, tail);
    WordsAfter(", ", value + ">");
    WordsBefore(value, ">");
    assert Blank(">") == " " && Words(" ", WHITE_SPACE) == [];
  }

  /** The words of the blanked text are the leaves of the type, in order. */
  lemma {:induction false} WordsShown(t: Type)
    requires Readable(t)
    ensures Words(Blank(Shown(t, " ", " ", " ")), WHITE_SPACE) == WordsOf(Leaves(t))
  {
    match t
    case Leaf(text) =>
      LeafWords(text);
    case Vec(inner) =>
      WordsShown(inner);
      WordsWrapped(Shown(inner, " ", " ", " "));
    case Optional(inner) =>
      WordsShown(inner);
      WordsWrapped(Shown(inner, " ", " ", " "));
    case HashMap(key, value) =>
      WordsShown(key);
      WordsShown(value);
      WordsPair(Shown(key, " ", " ", " "), Shown(value, " ", " ", " "));
      WordsOfConcat(Leaves(key), Leaves(value));
  }

  // ---- The names a resolved type holds ----

  function TypeOf(model: Model, target: Id, neededEnums: set<string>, ghost n: nat): (t: Type)
    requires Ends(model, target, n)
    decreases n
  {
    if ResolveBuiltinType(target).Some? || target !in model then Leaf(ResolveRustType(model, target, neededEnums, n))
    else match model[target]
      case List(member) => Vec(TypeOf(model, member, neededEnums, n - 1))
      case Map(key, value) =>
        HashMap(TypeOf(model, key, neededEnums, n - 1), TypeOf(model, value, neededEnums, n - 1))
      case _ => Leaf(ResolveRustType(model, target, neededEnums, n))
  }

  lemma {:induction false} ResolvedPrints(model: Model, target: Id, neededEnums: set<string>, n: nat)
    requires Ends(model, target, n)
    ensures ResolveRustType(model, target, neededEnums, n) == Print(TypeOf(model, target, neededEnums, n))
    decreases n
  {
    if ResolveBuiltinType(target).None? && target in model {
      match model[target]
      case List(member) =>
        ResolvedPrints(model, member, neededEnums, n - 1);
      case Map(key, value) =>
        ResolvedPrints(model, key, neededEnums, n - 1);
        ResolvedPrints(model, value, neededEnums, n - 1);
      case _ =>
    }
  }

  predicate Identifier(name: string) {
    name != "" && forall i | 0 <= i < |name| ::
      'a' <= name[i] <= 'z' || 'A' <= name[i] <= 'Z' || '0' <= name[i] <= '9' || name[i] == '_'
  }

  /** A shape that is printed by its own name. */
  predicate PrintsName(model: Model, id: Id, neededEnums: set<string>) {
    && ResolveBuiltinType(id).None? && id in model
    && (model[id].Structure? || model[id].Union? || (model[id].Enum? && ShortName(id) in neededEnums))
  }

  predicate ProperNames(model: Model) {
    forall id | id in model && (model[id].Structure? || model[id].Union? || model[id].Enum?) ::
      Identifier(ShortName(id))
  }

  /** The enums, structures and unions that a type comes down to. */
  function NamedShapes(model: Model, target: Id, neededEnums: set<string>, ghost n: nat): set<Id>
    requires Ends(model, target, n)
    decreases n
  {
    if PrintsName(model, target, neededEnums) then {target}
    else if ResolveBuiltinType(target).Some? || target !in model then {}
    else match model[target]
      case List(member) => NamedShapes(model, member, neededEnums, n - 1)
      case Map(key, value) =>
        NamedShapes(model, key, neededEnums, n - 1) + NamedShapes(model, value, neededEnums, n - 1)
      case _ => {}
  }

  predicate Known(known: set<string>) {
    forall name | name in known :: Identifier(name)
  }

  /** A name the reader takes. */
  predicate Looked(w: string, known: set<string>) {
    w in known && w !in SKIPPED
  }

  predicate NameOf(w: string, ids: set<Id>) {
    exists id :: id in ids && ShortName(id) == w
  }

  lemma IdentifierWord(text: string)
    requires Identifier(text)
    ensures Plain(text) && Word(text) == text
  {
    assert DATE_TIME[6] == ':';
  }

  /** The texts printed for anything but a name. */
  predicate BuiltinText(text: string) {
    || text == DATE_TIME || text == "()" || text == "String" || text == "bool" || text == "i32" || text == "i64"
    || text == "f32" || text == "f64" || text == "bytes::Bytes" || text == "serde_json::Value"
    || text == "StreamingBlob"
  }

  lemma BuiltinSkipped(text: string)
    requires BuiltinText(text)
    ensures Word(text) in SKIPPED || text == "()"
  {}

  lemma BuiltinPlain(text: string)
    requires BuiltinText(text)
    ensures Plain(text) || text == DATE_TIME
  {}

  lemma BuiltinWord(text: string, known: set<string>, w: string)
    requires BuiltinText(text) && Known(known) && Looked(w, known)
    ensures Word(text) != w
  {
    BuiltinSkipped(text);
    assert "()"[0] == '(';
  }

  lemma BuiltinTexts(model: Model, target: Id, neededEnums: set<string>, n: nat)
    requires Ends(model, target, n) && TypeOf(model, target, neededEnums, n).Leaf?
    requires !PrintsName(model, target, neededEnums)
    ensures BuiltinText(ResolveRustType(model, target, neededEnums, n))
  {}

  lemma LeafNames(model: Model, target: Id, neededEnums: set<string>, known: set<string>, w: string, n: nat)
    requires Ends(model, target, n) && ProperNames(model) && Known(known) && Looked(w, known)
    requires TypeOf(model, target, neededEnums, n).Leaf?
    ensures Readable(TypeOf(model, target, neededEnums, n))
    ensures w in WordsOf(Leaves(TypeOf(model, target, neededEnums, n)))
       <==> NameOf(w, NamedShapes(model, target, neededEnums, n))
  {
    var text := ResolveRustType(model, target, neededEnums, n);
    assert Leaves(TypeOf(model, target, neededEnums, n)) == [text] && WordsOf([text]) == [Word(text)];
    if PrintsName(model, target, neededEnums) {
      IdentifierWord(text);
      assert target in NamedShapes(model, target, neededEnums, n);
    } else {
      BuiltinTexts(model, target, neededEnums, n);
      BuiltinPlain(text);
      BuiltinWord(text, known, w);
    }
  }

  lemma {:induction false} TypeNames(model: Model, target: Id, neededEnums: set<string>, known: set<string>,
                        w: string, n: nat)
    requires Ends(model, target, n) && ProperNames(model) && Known(known) && Looked(w, known)
    ensures Readable(TypeOf(model, target, neededEnums, n))
    ensures w in WordsOf(Leaves(TypeOf(model, target, neededEnums, n)))
       <==> NameOf(w, NamedShapes(model, target, neededEnums, n))
    decreases n
  {
    var t := TypeOf(model, target, neededEnums, n);
    if t.Leaf? {
      LeafNames(model, target, neededEnums, known, w, n);
    } else {
      match model[target]
      case List(member) =>
        TypeNames(model, member, neededEnums, known, w, n - 1);
      case Map(key, value) =>
        TypeNames(model, key, neededEnums, known, w, n - 1);
        TypeNames(model, value, neededEnums, known, w, n - 1);
        WordsOfConcat(Leaves(t.key), Leaves(t.value));
    }
  }

  /** The reader finds in a printed type exactly the known names of the shapes the type
      comes down to, for names that are not skipped; the type may be an option of anything,
      as union members are. */
  lemma ReferencesExact(model: Model, target: Id, optional: bool, neededEnums: set<string>, known: set<string>,
                        w: string, n: nat)
    requires Ends(model, target, n) && ProperNames(model) && Known(known) && Looked(w, known)
    ensures w in Words(Cleaned(Wrapped(ResolveRustType(model, target, neededEnums, n), optional)), WHITE_SPACE)
       <==> NameOf(w, NamedShapes(model, target, neededEnums, n))
  {
    var t := TypeOf(model, target, neededEnums, n);
    ResolvedPrints(model, target, neededEnums, n);
    TypeNames(model, target, neededEnums, known, w, n);
    if optional {
      PassesShown(Optional(t));
      WordsShown(Optional(t));
    } else {
      PassesShown(t);
      WordsShown(t);
    }
  }

  /** No name the type holds is lost if and only if none of them is a skipped word. */
  lemma NothingLost(model: Model, target: Id, optional: bool, neededEnums: set<string>, known: set<string>, n: nat)
    requires Ends(model, target, n) && ProperNames(model) && Known(known)
    ensures var rustType := Wrapped(ResolveRustType(model, target, neededEnums, n), optional);
            var words := Words(Cleaned(rustType), WHITE_SPACE);
            var ids := NamedShapes(model, target, neededEnums, n);
            (forall w | w in known && NameOf(w, ids) :: w in words && Looked(w, known))
            <==> (forall w | w in known && NameOf(w, ids) :: w !in SKIPPED)
  {
    forall w | Looked(w, known)
      ensures w in Words(Cleaned(Wrapped(ResolveRustType(model, target, neededEnums, n), optional)), WHITE_SPACE)
         <==> NameOf(w, NamedShapes(model, target, neededEnums, n))
    {
      ReferencesExact(model, target, optional, neededEnums, known, w, n);
    }
  }

  // ---- What is printed ----

  /** A scalar of the model's own is printed like the built-in one of its kind. */
  lemma ScalarsAgree(model: Model, id: Id, neededEnums: set<string>, n: nat)
    requires id in model && ResolveBuiltinType(id).None? && Ends(model, id, n)
    ensures var printed := Some(ResolveRustType(model, id, neededEnums, n));
            match model[id]
            case Str(streaming) =>
              printed == ResolveBuiltinType(if streaming then "smithy.api#Blob" else "smithy.api#String")
            case Boolean => printed == ResolveBuiltinType("smithy.api#Boolean")
            case Integer => printed == ResolveBuiltinType("smithy.api#Integer")
            case Long => printed == ResolveBuiltinType("smithy.api#Long")
            case Float => printed == ResolveBuiltinType("smithy.api#Float")
            case Double => printed == ResolveBuiltinType("smithy.api#Double")
            case Timestamp => printed == ResolveBuiltinType("smithy.api#Timestamp")
            case Blob(streaming) =>
              printed == if streaming then Some("StreamingBlob") else ResolveBuiltinType("smithy.api#Blob")
            case Enum => printed == if ShortName(id) in neededEnums then Some(ShortName(id))
                                    else ResolveBuiltinType("smithy.api#String")
            case _ => true
  {}

  /** An id that the model does not define is printed like a string. */
  lemma UndefinedPrinted(model: Model, id: Id, neededEnums: set<string>, n: nat)
    requires id !in model && ResolveBuiltinType(id).None?
    ensures Ends(model, id, n)
    ensures Some(ResolveRustType(model, id, neededEnums, n)) == ResolveBuiltinType("smithy.api#String")
  {}

  /** The built-in types; a primitive is printed like its box. */
  lemma BuiltinsApart()
    ensures ResolveBuiltinType("smithy.api#Integer") == Some("i32") == ResolveBuiltinType("smithy.api#PrimitiveInteger")
    ensures ResolveBuiltinType("smithy.api#Long") == Some("i64") == ResolveBuiltinType("smithy.api#PrimitiveLong")
    ensures ResolveBuiltinType("smithy.api#Float") == Some("f32") == ResolveBuiltinType("smithy.api#PrimitiveFloat")
    ensures ResolveBuiltinType("smithy.api#Double") == Some("f64") == ResolveBuiltinType("smithy.api#PrimitiveDouble")
    ensures ResolveBuiltinType("smithy.api#String") == Some("String")
    ensures ResolveBuiltinType("smithy.api#Blob") == Some("bytes::Bytes")
    ensures ResolveBuiltinType("smithy.api#Timestamp") == Some("chrono::DateTime<chrono::Utc>")
    ensures ResolveBuiltinType("smithy.api#Document") == Some("serde_json::Value")
    ensures ResolveBuiltinType("smithy.api#Unit") == Some("()")
    ensures ResolveBuiltinType("smithy.api#Boolean") == Some("bool")
    ensures ResolveBuiltinType("smithy.api#PrimitiveBoolean") == Some("bool")
  {}

  /** A member is an option exactly when it may be absent and is no list or map. */
  lemma OptionalExactly(model: Model, target: Id, required: bool, neededEnums: set<string>, n: nat)
    requires Ends(model, target, n)
    ensures var base := ResolveRustType(model, target, neededEnums, n);
            var field := FieldType(model, target, required, neededEnums, n);
            && (field == base || field == "Option<" + base + ">")
            && (field == base <==> required || "Vec<" <= base || "HashMap<" <= base)
  {}

  /** A map of strings to a structure. */
  lemma MapPrinted(model: Model, id: Id, value: Id, neededEnums: set<string>)
    requires id in model && ResolveBuiltinType(id).None? && model[id] == Map("smithy.api#String", value)
    requires value in model && model[value].Structure? && ResolveBuiltinType(value).None?
    ensures Ends(model, id, 1)
    ensures ResolveRustType(model, id, neededEnums, 1) == "HashMap<" + "String" + ", " + ShortName(value) + ">"
  {
    assert Ends(model, "smithy.api#String", 0) && Ends(model, value, 0);
  }

  // ---- Where the printed names are declared ----

  /** Where the resolver puts a referenced shape; `Nowhere` is an error structure, or a
      shape that is no type of its own. */
  datatype Place = Enums | SharedTypes | InputTypes | OutputTypes | Nowhere

  function PlaceOf(model: Model, id: Id, found: Referenced, fromInputs: set<Id>, errors: set<Id>): Place {
    if id !in found.all || id !in model then Nowhere
    else match model[id]
      case Enum => Enums
      case Union(_) => SharedTypes
      case Structure(_) =>
        if id in errors then Nowhere
        else if id in found.inputs && id in found.outputs then SharedTypes
        else if id in found.inputs then InputTypes
        else if id in found.outputs then (if id in fromInputs then SharedTypes else OutputTypes)
        else SharedTypes
      case _ => Nowhere
  }

  /** A shape goes to a category's own types exactly if it is a structure, no error, and an
      operation's input and no output, or an output and no input. */
  lemma PlacesExact(model: Model, id: Id, found: Referenced, fromInputs: set<Id>, errors: set<Id>)
    requires id in found.all && id in model
    ensures PlaceOf(model, id, found, fromInputs, errors) == InputTypes <==>
            model[id].Structure? && id !in errors && id in found.inputs - found.outputs
    ensures PlaceOf(model, id, found, fromInputs, errors) == OutputTypes <==>
            model[id].Structure? && id !in errors && id in found.outputs - found.inputs - fromInputs
  {}

  /** The model defines no shape of the built-in namespace. */
  predicate NoPrelude(model: Model) {
    forall id | id in model :: !Builtin(id)
  }

  lemma {:induction false} NamedCollected(model: Model, target: Id, neededEnums: set<string>, n: nat, visited: set<Id>)
    requires Ends(model, target, n) && NoPrelude(model) && ClosedUnder(model, visited)
    requires target in visited || Builtin(target)
    ensures NamedShapes(model, target, neededEnums, n) <= visited
    decreases n
  {
    if target in model && ResolveBuiltinType(target).None? && !PrintsName(model, target, neededEnums) {
      assert Expanded(model, target, visited);
      match model[target]
      case List(member) =>
        assert member in Targets(model, target);
        NamedCollected(model, member, neededEnums, n - 1, visited);
      case Map(key, value) =>
        assert Targets(model, target)[0] == key && Targets(model, target)[1] == value;
        NamedCollected(model, key, neededEnums, n - 1, visited);
        NamedCollected(model, value, neededEnums, n - 1, visited);
      case _ =>
    }
  }

  lemma {:induction false} NamedPrinted(model: Model, target: Id, neededEnums: set<string>, n: nat, id: Id)
    requires Ends(model, target, n) && id in NamedShapes(model, target, neededEnums, n)
    ensures PrintsName(model, id, neededEnums)
    decreases n
  {
    if !PrintsName(model, target, neededEnums) {
      match model[target]
      case List(member) => NamedPrinted(model, member, neededEnums, n - 1, id);
      case Map(key, value) =>
        if id in NamedShapes(model, key, neededEnums, n - 1) { NamedPrinted(model, key, neededEnums, n - 1, id); }
        else { NamedPrinted(model, value, neededEnums, n - 1, id); }
    }
  }

  /** Field `j` of structure `i` mentions the word. */
  predicate Mentions(structs: seq<seq<string>>, i: nat, j: nat, w: string)
    requires i < |structs| && j < |structs[i]|
  {
    w in Words(Cleaned(structs[i][j]), WHITE_SPACE)
  }

  /** A field before field `j` of structure `i` mentions the word. */
  predicate MentionedBefore(structs: seq<seq<string>>, i: nat, j: nat, w: string)
    requires i <= |structs| && (i < |structs| ==> j <= |structs[i]|)
  {
    || (exists a, b :: 0 <= a < i && 0 <= b < |structs[a]| && Mentions(structs, a, b, w))
    || (i < |structs| && exists b :: 0 <= b < j && Mentions(structs, i, b, w))
  }

  /** The known names that the first fields mention. */
  predicate Imported(structs: seq<seq<string>>, i: nat, j: nat, known: set<string>, w: string)
    requires i <= |structs| && (i < |structs| ==> j <= |structs[i]|)
  {
    Looked(w, known) && MentionedBefore(structs, i, j, w)
  }

  /** The types a category imports: those of every field of every structure. */
  method CategoryNeedsTypes(structs: seq<seq<string>>, known: set<string>) returns (needed: set<string>)
    ensures forall w :: (w in needed) == Imported(structs, |structs|, 0, known, w)
  {
    needed := {};
    for i := 0 to |structs|
      invariant forall w :: (w in needed) == Imported(structs, i, 0, known, w)
    {
      for j := 0 to |structs[i]|
        invariant forall w :: (w in needed) == Imported(structs, i, j, known, w)
      {
        ghost var before := needed;
        needed := CollectTypeReferences(structs[i][j], known, needed);
        forall w ensures (w in needed) == Imported(structs, i, j + 1, known, w) {
          MentionStep(structs, i, j, w);
        }
      }
      forall w ensures MentionedBefore(structs, i, |structs[i]|, w) == MentionedBefore(structs, i + 1, 0, w) {
        MentionRow(structs, i, w);
      }
    }
  }

  lemma MentionStep(structs: seq<seq<string>>, i: nat, j: nat, w: string)
    requires i < |structs| && j < |structs[i]|
    ensures MentionedBefore(structs, i, j + 1, w) == (MentionedBefore(structs, i, j, w) || Mentions(structs, i, j, w))
  {}

  lemma MentionRow(structs: seq<seq<string>>, i: nat, w: string)
    requires i < |structs|
    ensures MentionedBefore(structs, i, |structs[i]|, w) == MentionedBefore(structs, i + 1, 0, w)
  {}

  // ---- Which printed names are imported ----

  /** Exactly the reachable shapes are collected. */
  ghost predicate Collected(model: Model, found: Referenced, fromInputs: set<Id>) {
    Closure(model, found.inputs + found.outputs, found.all) && Closure(model, found.inputs, fromInputs)
  }

  /** The enum names that the printer goes by. */
  function NeededEnums(model: Model, found: Referenced): set<string> {
    set id | id in found.all && id in model && model[id].Enum? :: ShortName(id)
  }

  /** The names of types.rs: the enums and the shared structures and unions. */
  function Declared(model: Model, found: Referenced, fromInputs: set<Id>, errors: set<Id>): set<string> {
    set id | id in found.all && PlaceOf(model, id, found, fromInputs, errors) in {Enums, SharedTypes} :: ShortName(id)
  }

  /** Any enum or union; a structure that is no error, and no operation's own input or
      output unless it serves on the other side too. */
  ghost predicate Shareable(model: Model, inputs: set<Id>, outputs: set<Id>, errors: set<Id>, id: Id) {
    && id in model
    && (model[id].Enum? || model[id].Union?
        || (model[id].Structure? && id !in errors
            && (id in inputs ==> id in outputs) && (id in outputs ==> ReachedFrom(model, inputs, id))))
  }

  /** `w` is the name of a shareable shape that the operations reach. */
  ghost predicate SharedName(model: Model, inputs: set<Id>, outputs: set<Id>, errors: set<Id>, w: string) {
    exists id :: ReachedFrom(model, inputs + outputs, id) && Shareable(model, inputs, outputs, errors, id)
              && ShortName(id) == w
  }

  lemma SharedExactly(model: Model, found: Referenced, fromInputs: set<Id>, errors: set<Id>, id: Id)
    requires Collected(model, found, fromInputs) && NoPrelude(model)
    ensures PlaceOf(model, id, found, fromInputs, errors) in {Enums, SharedTypes}
       <==> ReachedFrom(model, found.inputs + found.outputs, id)
            && Shareable(model, found.inputs, found.outputs, errors, id)
  {
    assert id in found.all <==> ReachedFrom(model, found.inputs + found.outputs, id);
    assert id in fromInputs <==> ReachedFrom(model, found.inputs, id);
    if id in model && id in found.inputs { assert Joins(model, [id], id, id); }
  }

  lemma DeclaredExactly(model: Model, found: Referenced, fromInputs: set<Id>, errors: set<Id>, w: string)
    requires Collected(model, found, fromInputs) && NoPrelude(model)
    ensures w in Declared(model, found, fromInputs, errors)
       <==> SharedName(model, found.inputs, found.outputs, errors, w)
  {
    forall id
      ensures PlaceOf(model, id, found, fromInputs, errors) in {Enums, SharedTypes}
         <==> ReachedFrom(model, found.inputs + found.outputs, id)
              && Shareable(model, found.inputs, found.outputs, errors, id)
    {
      SharedExactly(model, found, fromInputs, errors, id);
    }
  }

  /** Within the depth bound, whatever shape a field of a collected structure is printed
      with is collected too. A category that holds the field imports the shape's name if
      and only if the name is no skipped word and some shareable shape has it. */
  lemma FieldNamesImported(model: Model, found: Referenced, fromInputs: set<Id>, errors: set<Id>, owner: Id,
                           target: Id, required: bool, n: nat, id: Id, structs: seq<seq<string>>, i: nat, j: nat)
    requires Collected(model, found, fromInputs) && NoPrelude(model) && ProperNames(model)
    requires owner in found.all && target in Targets(model, owner) && Ends(model, target, n)
    requires id in NamedShapes(model, target, NeededEnums(model, found), n)
    requires i < |structs| && j < |structs[i]|
    requires structs[i][j] == FieldType(model, target, required, NeededEnums(model, found), n)
          || structs[i][j] == VariantType(model, target, NeededEnums(model, found), n)
    ensures id in found.all && id in model
    ensures Imported(structs, |structs|, 0, Declared(model, found, fromInputs, errors), ShortName(id))
       <==> ShortName(id) !in SKIPPED && SharedName(model, found.inputs, found.outputs, errors, ShortName(id))
  {
    var enums := NeededEnums(model, found);
    var known, w := Declared(model, found, fromInputs, errors), ShortName(id);
    assert Expanded(model, owner, found.all);
    NamedCollected(model, target, enums, n, found.all);
    NamedPrinted(model, target, enums, n, id);
    DeclaredExactly(model, found, fromInputs, errors, w);
    if Looked(w, known) {
      ReferencesExact(model, target, true, enums, known, w, n);
      ReferencesExact(model, target, false, enums, known, w, n);
      assert NameOf(w, NamedShapes(model, target, enums, n));
      assert Mentions(structs, i, j, w);
    }
  }

  // ---- Two names that are not imported ----

  lemma {:induction false} ShortNameOf(space: string, name: string)
    requires '#' !in name
    ensures ShortName(space + "#" + name) == name
  {
    var id := space + "#" + name;
    assert id[|space|] == '#';
    if name != "" {
      var rest := name[..|name| - 1];
      assert id[..|id| - 1] == space + "#" + rest;
      ShortNameOf(space, rest);
    }
  }

  /** A structure with one member, which is a structure without members. */
  function Pair(owner: Id, member: Id): Model {
    map[owner := Structure([member]), member := Structure([])]
  }

  lemma PairClosure(owner: Id, member: Id, inputs: set<Id>, all: set<Id>)
    requires owner != member && !Builtin(owner) && !Builtin(member) && owner in inputs && inputs <= {owner, member}
    requires all == {owner, member}
    ensures Closure(Pair(owner, member), inputs, all)
  {
    var model := Pair(owner, member);
    assert Expanded(model, owner, all) && Expanded(model, member, all);
    assert Joins(model, [owner], owner, owner) && Joins(model, [owner, member], owner, member);
    forall x ensures x in all <==> ReachedFrom(model, inputs, x) {
      if ReachedFrom(model, inputs, x) {
        var root :| root in inputs && Reachable(model, root, x);
        var path :| Joins(model, path, root, x);
        ClosedHolds(model, all, path);
      } else {
        assert Reachable(model, owner, x) <==> x in all by { assert owner in inputs; }
      }
    }
  }

  /** The model of an owner and its member, with the owner an input. */
  predicate PairFound(owner: Id, member: Id, found: Referenced) {
    && owner != member && !Builtin(owner) && !Builtin(member)
    && found.all == {owner, member} && found.outputs == {}
    && owner in found.inputs && found.inputs <= {owner, member}
  }

  /** A field that may be absent is printed as an optional `w`. */
  predicate Printed(model: Model, target: Id, neededEnums: set<string>, w: string) {
    Ends(model, target, 0) && FieldType(model, target, false, neededEnums, 0) == Wrapped(w, true)
  }

  lemma StructureField(model: Model, id: Id, neededEnums: set<string>)
    requires id in model && model[id].Structure? && ResolveBuiltinType(id).None?
    requires !IsCollectionType(ShortName(id))
    ensures Printed(model, id, neededEnums, ShortName(id))
  {
    assert ResolveRustType(model, id, neededEnums, 0) == ShortName(id);
  }

  lemma PairCollected(owner: Id, member: Id, found: Referenced)
    requires PairFound(owner, member, found)
    ensures Collected(Pair(owner, member), found, found.all)
  {
    PairClosure(owner, member, found.inputs, found.all);
    PairClosure(owner, member, found.inputs + found.outputs, found.all);
  }

  lemma NotImported(structs: seq<seq<string>>, known: set<string>, w: string)
    requires w in SKIPPED || w !in known
    ensures !Imported(structs, |structs|, 0, known, w)
  {}

  lemma NothingDeclared(owner: Id, member: Id, found: Referenced)
    requires PairFound(owner, member, found) && member in found.inputs
    ensures Declared(Pair(owner, member), found, found.all, {}) == {}
  {
    assert PlaceOf(Pair(owner, member), owner, found, found.all, {}) == InputTypes;
    assert PlaceOf(Pair(owner, member), member, found, found.all, {}) == InputTypes;
  }

  /** An input structure that is a member of another input's: its field is printed by its
      name, and types.rs declares no such structure. */
  lemma OwnInputNotImported(owner: Id, member: Id, found: Referenced, w: string)
    requires PairFound(owner, member, found) && ResolveBuiltinType(member).None? && !IsCollectionType(w)
    requires member in found.inputs && ShortName(member) == w
    ensures Collected(Pair(owner, member), found, found.all)
    ensures Printed(Pair(owner, member), member, NeededEnums(Pair(owner, member), found), w)
    ensures !Imported([[Wrapped(w, true)]], 1, 0, Declared(Pair(owner, member), found, found.all, {}), w)
  {
    PairCollected(owner, member, found);
    StructureField(Pair(owner, member), member, NeededEnums(Pair(owner, member), found));
    NothingDeclared(owner, member, found);
    NotImported([[Wrapped(w, true)]], {}, w);
  }

  ghost predicate DeclaredNotImported(owner: Id, member: Id, found: Referenced, w: string) {
    var known := Declared(Pair(owner, member), found, found.all, {});
    && Collected(Pair(owner, member), found, found.all)
    && Printed(Pair(owner, member), member, NeededEnums(Pair(owner, member), found), w)
    && w in known && !Imported([[Wrapped(w, true)]], 1, 0, known, w)
  }

  /** A shared structure whose name is a skipped word: types.rs declares it, and it is
      not imported. */
  lemma SkippedNotImported(owner: Id, member: Id, found: Referenced, w: string)
    requires PairFound(owner, member, found) && ResolveBuiltinType(member).None? && !IsCollectionType(w)
    requires member !in found.inputs && ShortName(member) == w && w in SKIPPED
    ensures DeclaredNotImported(owner, member, found, w)
  {
    var known := Declared(Pair(owner, member), found, found.all, {});
    PairCollected(owner, member, found);
    StructureField(Pair(owner, member), member, NeededEnums(Pair(owner, member), found));
    assert PlaceOf(Pair(owner, member), member, found, found.all, {}) == SharedTypes;
    NotImported([[Wrapped(w, true)]], known, w);
  }

  lemma ForeignName(id: Id)
    requires id != "" && id[0] == 'n'
    ensures !Builtin(id) && ResolveBuiltinType(id).None?
  {}

  /** A model on which it happens: an input with one member, the structure StreamingBlob. */
  lemma SkippedOccurs()
    ensures exists owner, member :: var found := Referenced({owner, member}, {owner}, {});
              && PairFound(owner, member, found) && ResolveBuiltinType(member).None?
              && ShortName(member) == "StreamingBlob"
              && DeclaredNotImported(owner, member, found, "StreamingBlob")
  {
    var name, w := "A", "StreamingBlob";
    var owner, member := "n" + "#" + name, "n" + "#" + w;
    ShortNameOf("n", w);
    assert |name| != |w| && owner != member;
    ForeignName(owner);
    ForeignName(member);
    assert w[0] == 'S' && "Vec<"[0] == 'V' && "HashMap<"[0] == 'H';
    SkippedNotImported(owner, member, Referenced({owner, member}, {owner}, {}), w);
  }
}
