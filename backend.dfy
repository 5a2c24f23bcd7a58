/**
 * The `/predict` handler of the Flask backend: the model-loaded check, the
 * validation of the JSON body and the mapping of the predicted class to a
 * label. The fitted vectorizer, scaler and perceptron are one classification
 * function over the cleaned text and the link features.
 */
module Backend {
  import opened Text
  import opened Values
  import opened Maybe
  import TextFeatures

  /** Which of the three fitted artifacts were found in the joblib file. */
  datatype Artifacts = Artifacts(hasVectorizer: bool, hasScaler: bool, hasClassifier: bool)

  predicate Loaded(a: Artifacts) { a.hasVectorizer && a.hasScaler && a.hasClassifier }

  /** What the handler answers: an error body with its status, an uncaught exception, or a label. */
  datatype Reply =
    | Failure(status: nat, message: string)
    | Crash
    | Prediction(name: string)

  const ModelNotLoaded := "Model not loaded. Train and save artifacts to models/perceptron_model.joblib"
  const MissingEmail := "Missing 'email'"

  /** `data = request.get_json(silent=True) or {}`: an unparsable body arrives as `Null`. */
  function RequestData(body: Value): (data: Value)
    ensures PyTruthy(body) ==> data == body
    ensures !PyTruthy(body) ==> data == Obj(map[])
  {
    if PyTruthy(body) then body else Obj(map[])
  }

  /**
   * `(data.get('email') or '').strip()`: `None` when the expression raises,
   * because `data` is no dictionary or the value is a truthy non-string.
   */
  function EmailText(data: Value): (r: Option<string>)
    ensures !data.Obj? ==> r.None?
    ensures data.Obj? && !PyTruthy(PyGet(data.fields, "email")) ==> r == Some([])
    ensures data.Obj? && PyGet(data.fields, "email").Str? ==> r == Some(PyStrip(PyGet(data.fields, "email").s))
  {
    if !data.Obj? then None
    else
      var v := PyGet(data.fields, "email");
      var e := if PyTruthy(v) then v else Str([]);
      if e.Str? then Some(PyStrip(e.s)) else None
  }

  /**
   * The `/predict` handler. `classify` stands for the vectorizer, the scaler
   * and the perceptron applied to the cleaned text and the link features.
   */
  function Predict(a: Artifacts, body: Value, stop: set<string>, stem: string -> string,
                   classify: (string, seq<nat>) -> int): (r: Reply)
    ensures !Loaded(a) ==> r == Failure(500, ModelNotLoaded)
    ensures r.Failure? ==> r.status == 500 || r.status == 400
    ensures r.Prediction? ==> Loaded(a) && (r.name == "Spam" || r.name == "Ham")
  {
    if !a.hasClassifier || !a.hasVectorizer || !a.hasScaler then Failure(500, ModelNotLoaded)
    else
      match EmailText(RequestData(body))
      case None => Crash
      case Some(email) =>
        if email == [] then Failure(400, MissingEmail)
        else
          var cleaned := TextFeatures.CleanText(email, stop, stem);
          var links := TextFeatures.ExtractLinkFeatures(email);
          Prediction(if classify(cleaned, links) == 1 then "Spam" else "Ham")
  }

  /** Without the artifacts the answer is the same whatever the request body holds. */
  lemma ModelCheckedFirst(a: Artifacts, b1: Value, b2: Value, stop: set<string>, stem: string -> string,
                          classify: (string, seq<nat>) -> int)
    requires !Loaded(a)
    ensures Predict(a, b1, stop, stem, classify) == Predict(a, b2, stop, stem, classify)
  {
  }

  /** A missing, falsy, empty or whitespace-only `email` in a dictionary body gets the 400 answer. */
  lemma BlankEmailRejected(a: Artifacts, fields: map<string, Value>, stop: set<string>, stem: string -> string,
                           classify: (string, seq<nat>) -> int)
    requires Loaded(a)
    requires var v := PyGet(fields, "email"); !PyTruthy(v) || (v.Str? && AllIn(v.s, IsPyWhitespace))
    ensures Predict(a, Obj(fields), stop, stem, classify) == Failure(400, MissingEmail)
  {
    var v := PyGet(fields, "email");
    if v.Str? { StripEmptyIff(v.s, IsPyWhitespace); }
  }

  /** The 400 answer comes exactly from a dictionary body whose `email` is falsy or blank. */
  lemma MissingEmailOnlyWhenBlank(a: Artifacts, body: Value, stop: set<string>, stem: string -> string,
                                  classify: (string, seq<nat>) -> int)
    requires Loaded(a)
    ensures Predict(a, body, stop, stem, classify) == Failure(400, MissingEmail)
            <==> RequestData(body).Obj? &&
                 var v := PyGet(RequestData(body).fields, "email");
                 !PyTruthy(v) || (v.Str? && AllIn(v.s, IsPyWhitespace))
  {
    var data := RequestData(body);
    if data.Obj? {
      var v := PyGet(data.fields, "email");
      if v.Str? { StripEmptyIff(v.s, IsPyWhitespace); }
    }
  }

  /** The label is "Spam" exactly when the classifier answers 1, and it is computed from the stripped text. */
  lemma LabelFromClass(a: Artifacts, fields: map<string, Value>, email: string, stop: set<string>,
                       stem: string -> string, classify: (string, seq<nat>) -> int)
    requires Loaded(a) && PyGet(fields, "email") == Str(email) && PyStrip(email) != []
    ensures var t := PyStrip(email);
      var c := classify(TextFeatures.CleanText(t, stop, stem), TextFeatures.ExtractLinkFeatures(t));
      && Predict(a, Obj(fields), stop, stem, classify).Prediction?
      && (Predict(a, Obj(fields), stop, stem, classify).name == "Spam" <==> c == 1)
  {
    assert PyTruthy(Obj(fields)) by { assert "email" in fields; }
  }

  /** Whitespace around the email does not change the answer. */
  lemma PaddingIgnored(a: Artifacts, fields: map<string, Value>, p: string, email: string, q: string,
                       stop: set<string>, stem: string -> string, classify: (string, seq<nat>) -> int)
    requires AllIn(p, IsPyWhitespace) && AllIn(q, IsPyWhitespace)
    ensures Predict(a, Obj(fields["email" := Str(p + email + q)]), stop, stem, classify)
         == Predict(a, Obj(fields["email" := Str(email)]), stop, stem, classify)
  {
    var f1, f2 := fields["email" := Str(p + email + q)], fields["email" := Str(email)];
    assert PyGet(f1, "email") == Str(p + email + q) && PyGet(f2, "email") == Str(email);
    assert RequestData(Obj(f1)) == Obj(f1) && RequestData(Obj(f2)) == Obj(f2);
    StripPadding(p, email, q, IsPyWhitespace);
    assert EmailText(Obj(f1)) == EmailText(Obj(f2));
    SameEmailSameReply(a, Obj(f1), Obj(f2), stop, stem, classify);
  }

  /** The answer depends on the body only through the stripped email text. */
  lemma SameEmailSameReply(a: Artifacts, b1: Value, b2: Value, stop: set<string>, stem: string -> string,
                           classify: (string, seq<nat>) -> int)
    requires EmailText(RequestData(b1)) == EmailText(RequestData(b2))
    ensures Predict(a, b1, stop, stem, classify) == Predict(a, b2, stop, stem, classify)
  {
  }
}
