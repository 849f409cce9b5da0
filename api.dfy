/** The shapes that cross the HTTP boundary: the identity a bearer token
    carries, the request bodies the routes read, and the status + text of a
    JSON reply. */
module Api {
  import opened Common

  /** The decoded token payload `{username, role, kelas}` written at login.
      The role is absent only when the user's row ended before column C (an
      empty role cell is kept as `""`); the class is absent when its cell
      was missing or empty at login. */
  datatype Identity = Identity(username: string, role: Option<string>, kelas: Option<string>)

  /** The status code of a reply and its `error` or `message` text. */
  datatype Reply = Reply(status: nat, text: string)

  /** `req.body` of the attendance routes; a missing property is `None`. */
  datatype AttendanceBody = AttendanceBody(
    tanggal: Option<string>,
    nama: Option<string>,
    kelas: Option<string>,
    status: Option<string>,
    keterangan: Option<string>)

  /** `req.body` of the user routes. */
  datatype UserBody = UserBody(
    username: Option<string>,
    password: Option<string>,
    role: Option<string>,
    kelas: Option<string>)

  const Guru := "guru"
  const Siswa := "siswa"
  const Sekertaris := "sekertaris"
  const GuruWaliMurid := "guru_wali_murid"

  const Forbidden := Reply(403, "Akses ditolak")
  const Incomplete := Reply(400, "Data tidak lengkap")
}
