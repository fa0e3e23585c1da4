/**
 * The "meaning of life" intent handler (client/modules/Life.py): it accepts any text in
 * which "vida" appears, in any ASCII case and anywhere, even inside a longer word, and
 * answers with one fixed phrase.
 */
module Life {
  import opened Text

  const WORD := "vida"

  /**
   * The reply "Es 42, raúl hiperbólico ñoño" as the byte string it is in the source (a
   * Python 2 `str` literal in a file declared as UTF-8): each accented letter is two bytes.
   */
  const REPLY := "Es 42, ra\U{C3}\U{BA}l hiperb\U{C3}\U{B3}lico \U{C3}\U{B1}o\U{C3}\U{B1}o"

  /** The accented letters of the reply, "ú", "ó" and "ñ", are the byte pairs written in `REPLY`. */
  lemma ReplyLettersUtf8()
    ensures Utf8Encode("\U{FA}") == "\U{C3}\U{BA}"
    ensures Utf8Encode("\U{F3}") == "\U{C3}\U{B3}"
    ensures Utf8Encode("\U{F1}") == "\U{C3}\U{B1}"
  {
  }

  /** `isValid(text)`: `re.search('vida', text, re.IGNORECASE)` found something. */
  predicate IsValid(text: string)
  {
    Contains(Lower(text), WORD)
  }

  /** The four characters at `i` fold to "vida". */
  predicate FoldsToWordAt(text: string, i: nat)
  {
    i + 4 <= |text| && Lower(text[i..i + 4]) == WORD
  }

  /** The search is case-insensitive on the text itself: four consecutive characters fold to "vida". */
  lemma IsValidMeansFoldedWindow(text: string)
    ensures IsValid(text) <==> exists i: nat :: FoldsToWordAt(text, i)
  {
    if IsValid(text) {
      var i: nat :| i <= |Lower(text)| && OccursAt(Lower(text), WORD, i);
      LowerSlice(text, i, i + 4);
      assert FoldsToWordAt(text, i);
    }
    if exists i: nat :: FoldsToWordAt(text, i) {
      var i: nat :| FoldsToWordAt(text, i);
      LowerSlice(text, i, i + 4);
      assert OccursAt(Lower(text), WORD, i);
    }
  }

  lemma ContainsInContext(p: string, t: string, s: string, w: string)
    requires Contains(t, w)
    ensures Contains(p + t + s, w)
  {
    var i: nat :| i <= |t| && OccursAt(t, w, i);
    OccursAtConcat(t, s, w, i);
    OccursAtConcat(p, t + s, w, i);
    assert p + t + s == p + (t + s);
  }

  /** Text around an accepted text keeps it accepted. */
  lemma Monotone(p: string, t: string, s: string)
    requires IsValid(t)
    ensures IsValid(p + t + s)
  {
    LowerConcat(p, t);
    LowerConcat(p + t, s);
    ContainsInContext(Lower(p), Lower(t), Lower(s), WORD);
  }

  /** No word boundary is asked for: "vida" in any ASCII case, with anything around it, is accepted. */
  lemma AcceptedAnywhere(p: string, w: string, s: string)
    requires Lower(w) == WORD
    ensures IsValid(p + w + s)
  {
    assert OccursAt(Lower(w), WORD, 0);
    ContainsInContext(Lower(p), Lower(w), Lower(s), WORD);
    LowerConcat(p, w);
    LowerConcat(p + w, s);
  }

  /** "vidas" and "Convida" are accepted: the word may sit inside a longer one. */
  lemma InsideWordsAccepted()
    ensures IsValid("vidas") && IsValid("Convida")
  {
    AcceptedAnywhere("", "vida", "s");
    assert "" + "vida" + "s" == "vidas";
    AcceptedAnywhere("Con", "vida", "");
    assert "Con" + "vida" + "" == "Convida";
  }

  /** "Viva" is rejected. */
  lemma OtherWordRejected()
    ensures !IsValid("Viva")
  {
    IsValidMeansFoldedWindow("Viva");
    forall i: nat
      ensures !FoldsToWordAt("Viva", i)
    {
      if i == 0 {
        assert Lower("Viva"[0..4]) == "viva";
      }
    }
  }

  /** `handle(text, mic, profile)`: the phrases passed to `mic.say`, in order. */
  function Handle(text: string, profile: map<string, string>): (said: seq<string>)
    ensures said == [REPLY]
    ensures IsByteString(said[0]) && !IsAscii(said[0])
  {
    assert REPLY[9] as int == 0xC3;
    [REPLY]
  }

  /** The reply depends on neither the text nor the profile. */
  lemma HandleIgnoresInput(t1: string, p1: map<string, string>, t2: string, p2: map<string, string>)
    ensures Handle(t1, p1) == Handle(t2, p2)
  {
  }
}
