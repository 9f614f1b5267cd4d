/**
 The strength-tiering pipeline: which edge proposals are stored, and how strong.

 The sanity filter and the formal checkers are foreign code. Each is a parameter, any
 function of the proposal; what is fixed here is which one is asked and what passing earns.
 */
module Verifier {
  import opened Options
  import opened KappaAlgebra
  import opened Records

  datatype Proposal = Proposal(
    signer: Bytes, premises: seq<Node>, conclusion: Node, rule: string, kind: EdgeType, proof: Option<Blob>)

  datatype Checkers = Checkers(
    elenchus: Proposal -> Verdict,
    z3: Proposal -> bool,
    lean: Proposal -> bool,
    cas: Proposal -> bool,
    spectral: Proposal -> bool)

  // ----- The roster of accepted ground -----

  const ROSTER: set<string> := {
    "0 is a natural number",
    "the successor of a natural number is a natural number",
    "a prime is an integer greater than 1 with exactly two positive divisors",
    "the empty set has no elements",
    "for all x, x = x"
  }

  /** The characters at which a string is split into words. */
  predicate IsSpace(c: char) {
    || '\t' <= c <= '\r' || '\U{1C}' <= c <= ' ' || c == '\U{85}' || c == '\U{A0}' || c == '\U{1680}'
    || '\U{2000}' <= c <= '\U{200A}' || c == '\U{2028}' || c == '\U{2029}' || c == '\U{202F}' || c == '\U{205F}' ||
         c == '\U{3000}'
  }

  function Flush(word: string): seq<string> {
    if word == "" then [] else [word]
  }

  /** The words of `s`, the first of which has already begun with `word`. */
  function WordsFrom(word: string, s: string): seq<string>
    decreases |s|
  {
    if s == "" then Flush(word)
    else if IsSpace(s[0]) then Flush(word) + WordsFrom("", s[1..])
    else WordsFrom(word + [s[0]], s[1..])
  }

  function Words(s: string): seq<string> {
    WordsFrom("", s)
  }

  function Join(words: seq<string>): string {
    if words == [] then ""
    else if |words| == 1 then words[0]
    else words[0] + " " + Join(words[1..])
  }

  /** `_normalize`: runs of white space become one space, at the ends none. */
  function Normalize(claim: string): string {
    Join(Words(claim))
  }

  predicate InRoster(claim: string) {
    Normalize(claim) in ROSTER
  }

  predicate IsWord(w: string) {
    w != "" && forall i | 0 <= i < |w| :: !IsSpace(w[i])
  }

  lemma {:induction false} WordsAreWords(word: string, s: string)
    requires word == "" || IsWord(word)
    ensures forall i | 0 <= i < |WordsFrom(word, s)| :: IsWord(WordsFrom(word, s)[i])
    decreases |s|
  {
    if s != "" {
      if IsSpace(s[0]) {
        WordsAreWords("", s[1..]);
      } else {
        WordsAreWords(word + [s[0]], s[1..]);
      }
    }
  }

  /** Reading a word and what follows it: the word grows by its own letters only. */
  lemma {:induction false} ReadWord(word: string, w: string, rest: string)
    requires forall i | 0 <= i < |w| :: !IsSpace(w[i])
    ensures WordsFrom(word, w + rest) == WordsFrom(word + w, rest)
    decreases |w|
  {
    if w == "" {
      assert w + rest == rest && word + w == word;
    } else {
      assert (w + rest)[1..] == w[1..] + rest;
      assert word + [w[0]] + w[1..] == word + w;
      ReadWord(word + [w[0]], w[1..], rest);
    }
  }

  lemma {:induction false} WordsOfJoin(words: seq<string>)
    requires forall i | 0 <= i < |words| :: IsWord(words[i])
    ensures Words(Join(words)) == words
    decreases |words|
  {
    if |words| == 1 {
      ReadWord("", words[0], "");
      assert words[0] + "" == words[0] && "" + words[0] == words[0];
    } else if |words| > 1 {
      var tail := " " + Join(words[1..]);
      assert words[0] + " " + Join(words[1..]) == words[0] + tail;
      ReadWord("", words[0], tail);
      assert "" + words[0] == words[0] && tail[1..] == Join(words[1..]);
      WordsOfJoin(words[1..]);
      assert words == [words[0]] + words[1..];
    }
  }

  /** Normalising compares words: it is idempotent, and two claims have one normal form
      exactly when they have the same words. */
  lemma {:induction false} NormalizeComparesWords(a: string, b: string)
    ensures Normalize(Normalize(a)) == Normalize(a)
    ensures Normalize(a) == Normalize(b) <==> Words(a) == Words(b)
  {
    WordsAreWords("", a);
    WordsAreWords("", b);
    WordsOfJoin(Words(a));
    WordsOfJoin(Words(b));
  }

  /** What the words of a string are: a white character separates, whatever stands on either
      side; and a string without one is a word, or nothing. */
  lemma {:induction false} WordsAre(a: string, c: char, b: string, w: string)
    ensures IsSpace(c) ==> Words(a + [c] + b) == Words(a) + Words(b)
    ensures IsWord(w) ==> Words(w) == [w]
    ensures Words("") == []
  {
    if IsSpace(c) {
      SpaceSeparates("", a, c, b);
    }
    if IsWord(w) {
      WordsOfJoin([w]);
    }
  }

  lemma {:induction false} SpaceSeparates(word: string, a: string, c: char, b: string)
    requires IsSpace(c)
    ensures WordsFrom(word, a + [c] + b) == WordsFrom(word, a) + Words(b)
    decreases |a|
  {
    var all := a + [c] + b;
    if a == "" {
      assert all[1..] == b && all[0] == c;
    } else {
      assert all[0] == a[0] && all[1..] == a[1..] + [c] + b;
      if IsSpace(a[0]) {
        SpaceSeparates("", a[1..], c, b);
        assert Flush(word) + (WordsFrom("", a[1..]) + Words(b)) == Flush(word) + WordsFrom("", a[1..]) + Words(b);
      } else {
        SpaceSeparates(word + [a[0]], a[1..], c, b);
      }
    }
  }

  /** The ASCII characters that separate. */
  lemma {:induction false} AsciiSpaces(c: char)
    requires c as int < 128
    ensures IsSpace(c) <==> c as int in {9, 10, 11, 12, 13, 28, 29, 30, 31, 32}
  {
  }

  /** A claim is accepted ground exactly when its words, with single spaces between them, make
      one of five lines. */
  lemma {:induction false} InRosterIff(claim: string)
    ensures InRoster(claim) <==>
              || Join(Words(claim)) == "0 is a natural number"
              || Join(Words(claim)) == "the successor of a natural number is a natural number"
              || Join(Words(claim)) == "a prime is an integer greater than 1 with exactly two positive divisors"
              || Join(Words(claim)) == "the empty set has no elements"
              || Join(Words(claim)) == "for all x, x = x"
  {
    hide Words, Join;
  }

  // ----- The pipeline -----

  datatype Checker = RosterChecker | LeanChecker | Z3Checker | CasChecker | SpectralChecker

  datatype CheckerResult = CheckerResult(passed: bool, kappa: Kappa)

  datatype VerificationResult = VerificationResult(verdict: Verdict, kappa: Kappa, checker: Option<CheckerResult>) {
    predicate Rejected() {
      verdict == HardVeto
    }
  }

  /** An empty byte string counts as no proof. */
  predicate HasProof(proof: Option<Blob>) {
    proof.Some? && !(proof.value.Other? && proof.value.bytes == [])
  }

  function CheckerFor(kind: EdgeType, proof: Option<Blob>): Option<Checker> {
    match kind
    case Definition => Some(RosterChecker)
    case Deduction => Some(if HasProof(proof) then LeanChecker else Z3Checker)
    case Numerical => Some(CasChecker)
    case Spectral => Some(SpectralChecker)
    case _ => None
  }

  function DefaultKappa(kind: EdgeType): Kappa {
    if kind == Analogy then K0 else K1
  }

  /** What each checker's file fixes for a pass and for a failure. */
  function Check(ck: Checkers, which: Checker, p: Proposal): CheckerResult {
    match which
    case RosterChecker => CheckerResult(true, if InRoster(p.conclusion.claim) then KInf else K1)
    case LeanChecker => if ck.lean(p) then CheckerResult(true, K3) else CheckerResult(false, K0)
    case Z3Checker => if ck.z3(p) then CheckerResult(true, K3) else CheckerResult(false, K0)
    case CasChecker => if ck.cas(p) then CheckerResult(true, K2) else CheckerResult(false, K0)
    case SpectralChecker => if ck.spectral(p) then CheckerResult(true, K2) else CheckerResult(false, K0)
  }

  /** `verify`. */
  function Verify(ck: Checkers, p: Proposal): VerificationResult {
    var verdict := ck.elenchus(p);
    if verdict == HardVeto then VerificationResult(HardVeto, K0, None)
    else match CheckerFor(p.kind, p.proof)
      case None => VerificationResult(verdict, DefaultKappa(p.kind), None)
      case Some(which) =>
        var result := Check(ck, which, p);
        if !result.passed then VerificationResult(HardVeto, K0, Some(result))
        else VerificationResult(verdict, result.kappa, Some(result))
  }

  /** A deduction with no proof, or an empty one, is for Z3. */
  predicate Unproved(p: Proposal) {
    match p.proof
    case None => true
    case Some(Other(bytes, _, _)) => bytes == []
    case Some(_) => false
  }

  /** Exactly which proposals are rejected, by what; and that the rest keep the filter's verdict. */
  lemma {:induction false} RejectedIff(ck: Checkers, p: Proposal)
    ensures Verify(ck, p).Rejected() <==>
              || ck.elenchus(p) == HardVeto
              || (p.kind == Deduction && Unproved(p) && !ck.z3(p))
              || (p.kind == Deduction && !Unproved(p) && !ck.lean(p))
              || (p.kind == Numerical && !ck.cas(p))
              || (p.kind == Spectral && !ck.spectral(p))
    ensures !Verify(ck, p).Rejected() ==> Verify(ck, p).verdict == ck.elenchus(p)
    ensures Verify(ck, p).Rejected() ==> Verify(ck, p).kappa == K0
    ensures Verify(ck, p).checker.Some? <==>
              ck.elenchus(p) != HardVeto && p.kind in {Definition, Deduction, Numerical, Spectral}
    ensures Verify(ck, p).checker.Some? ==> (Verify(ck, p).checker.value.passed <==> !Verify(ck, p).Rejected())
  {
  }

  /** Which proposals can earn which strength. */
  ghost predicate Earns(kind: EdgeType, claim: string, k: Kappa) {
    match k
    case KInf => kind == Definition && InRoster(claim)
    case K3 => kind == Deduction
    case K2 => kind == Numerical || kind == Spectral
    case K1 => kind == Reduction || kind == Refutation || kind == Citation || (kind == Definition && !InRoster(claim))
    case K0 => kind == Analogy
  }

  /** A stored edge's strength is exactly what its type, and for a definition its claim,
      can earn; and no two strengths can be earned by one proposal. */
  lemma StoredStrengthIsEarned(ck: Checkers, p: Proposal, k: Kappa)
    requires !Verify(ck, p).Rejected()
    ensures Verify(ck, p).verdict == Pass || Verify(ck, p).verdict == SoftFlag
    ensures Verify(ck, p).kappa == k <==> Earns(p.kind, p.conclusion.claim, k)
  {
  }
}
