/** backend/services/voice_service.py: the checks `validate_audio_file`
    makes before a file is accepted, and the answer of `transcribe_audio`
    for a missing file. Whether the file exists, its size and the clock are
    inputs. */
module Voice {
  import opened Strings

  const SupportedFormats: seq<string> := ["wav", "mp3", "flac"]

  /** 10 MiB. */
  const MaxSize := 10 * 1024 * 1024

  datatype Validation = Invalid(error: string) | Valid(size: int, format: string)

  /** `file_path.split('.')[-1]`. */
  function LastPiece(path: string): string {
    Last(SplitOn(path, '.'))
  }

  /** `file_path.split('.')[-1].lower()`. */
  function Extension(path: string): string {
    PyLower(LastPiece(path))
  }

  /** The last piece is the text after the last '.', or the whole path when
      it has no '.'. */
  lemma LastPieceAfterLastDot(path: string)
    ensures '.' in path ==> LastPiece(path) == path[LastIndex(path, '.') + 1..]
    ensures '.' !in path ==> LastPiece(path) == path
  {
    SplitLast(path, '.');
    if '.' in path {
      LastIndexUnique(path, '.', |path| - |LastPiece(path)| - 1);
    }
  }

  /** `validate_audio_file`: existence first, then the format, then the size. */
  function ValidateAudioFile(exists_: bool, path: string, size: int): (r: Validation)
    ensures !exists_ ==> r == Invalid("File does not exist")
    ensures r.Valid? <==> (exists_ && Extension(path) in SupportedFormats && size <= MaxSize)
    ensures r.Valid? ==> r.size == size && r.format == Extension(path) && r.format in SupportedFormats
  {
    if !exists_ then Invalid("File does not exist")
    else
      var ext := Extension(path);
      if ext !in SupportedFormats then
        Invalid("Unsupported format. Supported formats: " + Join(SupportedFormats, ", "))
      else if size > MaxSize then Invalid("File size too large (max 10MB)")
      else Valid(size, ext)
  }

  /** A missing file is rejected whatever its name and size; an existing one
      is judged on its format before its size. */
  lemma ValidationOrder(path: string, size: int, otherPath: string, otherSize: int)
    ensures ValidateAudioFile(false, path, size) == ValidateAudioFile(false, otherPath, otherSize)
    ensures Extension(path) !in SupportedFormats ==>
      ValidateAudioFile(true, path, size) == ValidateAudioFile(true, path, otherSize)
    ensures Extension(path) in SupportedFormats && size > MaxSize ==>
      ValidateAudioFile(true, path, size) == Invalid("File size too large (max 10MB)")
  {
  }

  /** The size limit is inclusive: exactly 10 MiB passes, one byte more fails. */
  lemma SizeLimitInclusive(path: string)
    requires Extension(path) in SupportedFormats
    ensures ValidateAudioFile(true, path, 10485760) == Valid(10485760, Extension(path))
    ensures ValidateAudioFile(true, path, 10485761).Invalid?
  {
  }

  /** Upper-case extensions are accepted and reported in lower case, and the
      name before the last dot does not matter. */
  lemma UpperCaseExtension(stem: string, size: int)
    requires 0 <= size <= MaxSize
    ensures ValidateAudioFile(true, stem + ".WAV", size) == Valid(size, "wav")
  {
    var path := stem + ".WAV";
    assert path[|stem|] == '.';
    var p := LastIndex(path, '.');
    assert p == |stem|;
    assert path[p + 1..] == "WAV";
    LastPieceAfterLastDot(path);
    assert LastPiece(path) == "WAV";
    assert PyLower("WAV") == "wav";
  }

  /** What `transcribe_audio` answers: the missing-file failure, or the
      fixed mock transcription. */
  datatype Transcription =
    | NotFound(error: string, transcription: string, confidence: real)
    | Mock(transcription: string, confidence: real, audioFile: string, processingTime: real,
           language: string, timestamp: string)

  predicate Success(t: Transcription) {
    t.Mock?
  }

  /** `transcribe_audio`; `timestamp` is the current time. */
  function TranscribeAudio(exists_: bool, path: string, timestamp: string): (r: Transcription)
    ensures !exists_ ==> (!Success(r) && r.transcription == "" && r.confidence == 0.0
      && r.error == "Audio file not found")
    ensures exists_ ==> Success(r) && r.audioFile == path && r.timestamp == timestamp
  {
    if !exists_ then NotFound("Audio file not found", "", 0.0)
    else Mock("This is a mock transcription of the audio file.", 0.85, path, 1.2, "en-US", timestamp)
  }
}
