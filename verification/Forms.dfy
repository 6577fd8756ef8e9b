/** A submitted form, by the first value of each key. */
module Forms {
  type Form = map<string, string>

  function FormValue(form: Form, key: string): string { if key in form then form[key] else "" }
}
