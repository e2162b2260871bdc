/**
 * The column configuration of the contact sheet: which CSV columns feed which
 * line of a record block, and which columns the "Other:" line leaves out.
 * The names are those of the address-book export the script reads.
 */
module Columns {

  const FIRST_NAME := "Nombre"
  const LAST_NAME := "Apellidos"
  /** The column the script adds to hold the sort key. */
  const FULL_NAME := "Nombre completo"

  /** Phone columns, each with the tag printed after the number, in dictionary order. */
  const PHONES: seq<(string, string)> := [
    ("Teléfono (Trabajo)", "(trabajo)"),
    ("Teléfono particular", "(personal)"),
    ("Teléfono móvil", "(móvil)")
  ]
  const WORK_PHONE := "Teléfono (Trabajo)"

  const EMAILS: seq<string> := [
    "Dirección de correo electrónico principal",
    "Dirección de correo electrónico secundaria"
  ]
  const PRIMARY_EMAIL := "Dirección de correo electrónico principal"

  const HOME_ADDRESS: seq<string> := [
    "Dirección personal", "Dirección personal 2", "Ciudad donde vive", "Provincia",
    "Código postal", "País de residencia"
  ]
  const WORK_ADDRESS: seq<string> := [
    "Dirección de trabajo", "Dirección de trabajo 2", "Ciudad (Trabajo)",
    "Provincia (Trabajo)", "Código postal (Trabajo)", "País (Trabajo)"
  ]
  const EXTRA_NAMES: seq<string> := ["Nombre mostrado", "Apodo"]

  const JOB_TITLE := "Puesto"
  const BIRTH_DAY := "Día de nacimiento"
  const BIRTH_MONTH := "Mes de nacimiento"
  const BIRTH_YEAR := "Año de nacimiento"

  /** The keys of the phone dictionary, in order. */
  const PHONE_COLUMNS: seq<string> := [PHONES[0].0, PHONES[1].0, PHONES[2].0]

  /** Columns that never reach the "Other:" line. */
  const IGNORED: seq<string> :=
    [FULL_NAME, FIRST_NAME, LAST_NAME] + PHONE_COLUMNS + EMAILS
    + HOME_ADDRESS + WORK_ADDRESS
    + [JOB_TITLE, "Departamento", "Organización", "Página web 1", "Página web 2",
       BIRTH_YEAR, BIRTH_MONTH, BIRTH_DAY]
}
