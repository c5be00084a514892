/**
 * The Monaco language data for the two surface syntaxes of the language,
 * "bs" and "bsx" (`createLanguageData` in playground/src/language.js).
 * Regular expressions are kept as the text of their source; their meaning
 * belongs to Monaco's tokenizer, which is not part of this model.
 */
module Language {

  /** A bracket or surrounding pair of the editor configuration. */
  datatype Pair = Pair(open: string, close: string)

  /** An auto-closing pair, not applied inside the listed token kinds. */
  datatype AutoClosingPair = AutoClosingPair(open: string, close: string, notIn: seq<string>)

  /** The syntax-independent editor configuration (LanguageConfiguration). */
  datatype Configuration = Configuration(
    wordPattern: string,
    brackets: seq<Pair>,
    autoClosingPairs: seq<AutoClosingPair>,
    surroundingPairs: seq<Pair>)

  /** A bracket of the Monarch definition with the token it is given. */
  datatype BracketRule = BracketRule(open: string, close: string, token: string)

  /** The Monarch tokenizer definition, without its tokenizer states. */
  datatype Monarch = Monarch(
    defaultToken: string,
    tokenPostfix: string,
    keywords: seq<string>,
    types: seq<string>,
    constants: seq<string>,
    ident: string,
    brackets: seq<BracketRule>,
    operators: seq<string>,
    symbols: string)

  datatype LanguageData = LanguageData(configuration: Configuration, language: Monarch)

  const BaseKeywords: seq<string> := ["if", "else", "for", "fn", "let", "const", "try", "catch"]

  const BsxKeywords: seq<string> :=
    ["rn", "be", "lit", "mf", "sus", "fake", "impostor", "nah", "fr", "btw",
     "carenot", "bruh", "yall", "smol", "thicc", "fuck_around", "find_out"]

  const BaseConstants: seq<string> := ["true", "false", "null"]

  const BsxConstants: seq<string> := ["fake", "nocap", "cap"]

  const Types: seq<string> := ["number", "object", "string"]

  const Operators: seq<string> :=
    ["+", "-", "*", "/", "%", "=", "==", "!=", "<", ">", "<=", ">=", "&&", "|", ";", "."]

  const IdentPattern: string := "[A-Za-z_][A-Za-z_0-9]*"

  const SymbolsPattern: string := "[\\+\\-\\*\\/\\%\\=\\!\\<\\>\\&\\|\\;\\.]+"

  const EditorConfiguration: Configuration :=
    Configuration(
      IdentPattern,
      [Pair("{", "}"), Pair("(", ")")],
      [AutoClosingPair("{", "}", ["string"]),
       AutoClosingPair("(", ")", ["string"]),
       AutoClosingPair("\"", "\"", ["string"])],
      [Pair("{", "}"), Pair("(", ")"), Pair("\"", "\"")])

  /** The syntax test of the source: only the exact tag "bsx" selects the extended lists. */
  predicate IsBsx(syntax: string) {
    syntax == "bsx"
  }

  /** `createLanguageData(syntax)`. */
  function CreateLanguageData(syntax: string): (r: LanguageData)
    ensures BaseKeywords <= r.language.keywords && BaseConstants <= r.language.constants
    ensures ("fake" in r.language.keywords) <==> IsBsx(syntax)
    ensures ("fake" in r.language.constants) <==> IsBsx(syntax)
  {
    LanguageData(
      EditorConfiguration,
      Monarch(
        "",
        ".bs",
        BaseKeywords + (if IsBsx(syntax) then BsxKeywords else []),
        Types,
        BaseConstants + (if IsBsx(syntax) then BsxConstants else []),
        IdentPattern,
        [BracketRule("{", "}", "delimiter.bracket"), BracketRule("(", ")", "delimiter.parenthesis")],
        Operators,
        SymbolsPattern))
  }

  /** Under "bs" the keywords are exactly the eight base keywords, in order. */
  lemma BsKeywords()
    ensures CreateLanguageData("bs").language.keywords
         == ["if", "else", "for", "fn", "let", "const", "try", "catch"]
  {
  }

  /** Under "bsx" the eight base keywords are followed by the seventeen extra words, in order. */
  lemma BsxKeywordList()
    ensures CreateLanguageData("bsx").language.keywords
         == ["if", "else", "for", "fn", "let", "const", "try", "catch"]
          + ["rn", "be", "lit", "mf", "sus", "fake", "impostor", "nah", "fr", "btw",
             "carenot", "bruh", "yall", "smol", "thicc", "fuck_around", "find_out"]
  {
  }

  /** The constants: true, false, null, and under "bsx" also fake, nocap, cap. */
  lemma ConstantLists()
    ensures CreateLanguageData("bs").language.constants == ["true", "false", "null"]
    ensures CreateLanguageData("bsx").language.constants == ["true", "false", "null", "fake", "nocap", "cap"]
  {
  }

  /** The "bs" keyword and constant lists are prefixes of the "bsx" ones. */
  lemma BsIsPrefixOfBsx()
    ensures CreateLanguageData("bs").language.keywords <= CreateLanguageData("bsx").language.keywords
    ensures CreateLanguageData("bs").language.constants <= CreateLanguageData("bsx").language.constants
    ensures |CreateLanguageData("bs").language.keywords| == 8
    ensures |CreateLanguageData("bsx").language.keywords| == 25
  {
  }

  /** Every tag other than "bsx" gives exactly the "bs" data. */
  lemma OtherTagsAreBs(syntax: string)
    requires !IsBsx(syntax)
    ensures CreateLanguageData(syntax) == CreateLanguageData("bs")
  {
  }

  /**
   * Only the keyword and constant lists depend on the syntax: the configuration,
   * the types, the operators, the token postfix and every other field agree.
   */
  lemma SharedFields(a: string, b: string)
    ensures CreateLanguageData(a).configuration == CreateLanguageData(b).configuration
    ensures CreateLanguageData(a).language.(keywords := [], constants := [])
         == CreateLanguageData(b).language.(keywords := [], constants := [])
    ensures CreateLanguageData(a).language.types == ["number", "object", "string"]
    ensures CreateLanguageData(a).language.tokenPostfix == ".bs"
  {
  }

  /** None of true, false, null is a keyword of either syntax. */
  lemma BaseConstantNotKeyword(w: string)
    requires w in BaseConstants
    ensures w !in BaseKeywords + BsxKeywords
  {
  }

  /** Of the extra constants of "bsx", only "fake" is also a keyword. */
  lemma BsxConstantAsKeyword(w: string)
    requires w in BsxConstants && w in BaseKeywords + BsxKeywords
    ensures w == "fake"
  {
  }

  /** Under "bsx", a word is both keyword and constant exactly when it is "fake". */
  lemma BsxOverlap(w: string)
    ensures (w in BaseKeywords + BsxKeywords && w in BaseConstants + BsxConstants) <==> w == "fake"
  {
    if w in BaseKeywords + BsxKeywords && w in BaseConstants + BsxConstants {
      if w in BaseConstants {
        BaseConstantNotKeyword(w);
      } else {
        BsxConstantAsKeyword(w);
      }
    }
    if w == "fake" {
      assert (BaseKeywords + BsxKeywords)[13] == w;
      assert (BaseConstants + BsxConstants)[3] == w;
    }
  }

  /** "fake" is the one word that is both keyword and constant, and only under "bsx". */
  lemma KeywordConstantOverlap(syntax: string, w: string)
    ensures var d := CreateLanguageData(syntax).language;
      (w in d.keywords && w in d.constants) <==> IsBsx(syntax) && w == "fake"
  {
    if IsBsx(syntax) {
      BsxOverlap(w);
    } else if w in BaseConstants {
      BaseConstantNotKeyword(w);
    }
  }
}
